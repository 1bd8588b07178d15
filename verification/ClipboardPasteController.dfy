// The paste controller as the stateful object the source declares: four fields that its methods
// update in place, each proved against the transition functions of ClipboardPaste.
module ClipboardPasteController {
  import opened Common
  import opened ClipboardPaste
  import opened ClipboardPasteInvariants

  class ClipboardImagePasteController {
    var inputEpochs: map<Uuid, nat>
    var requests: seq<Request>
    var activeUploadId: Option<Uuid>
    var revision: nat

    ghost function Abs(): Paste
      reads this
    {
      Paste(inputEpochs, requests, activeUploadId, revision)
    }

    constructor ()
      ensures Abs() == INITIAL
      ensures Inv(Abs())
    {
      inputEpochs, requests, activeUploadId, revision := map[], [], None, 0;
    }

    method BumpRevision()
      modifies this`revision
      ensures Abs() == Bump(old(Abs()))
    {
      revision := (revision + 1) % U64_LIMIT;
    }

    method RequestIndex(id: Uuid) returns (found: Option<nat>)
      ensures found == Find(Abs(), id)
    {
      var index := 0;
      while index < |requests|
        invariant index <= |requests|
        invariant FindFrom(requests, id, 0) == FindFrom(requests, id, index)
      {
        if requests[index].requestId == id {
          return Some(index);
        }
        index := index + 1;
      }
      found := None;
    }

    method RetainedRequestCount() returns (count: nat)
      ensures count == RetainedCount(requests)
    {
      count := 0;
      for k := 0 to |requests|
        invariant count == RetainedCount(requests[..k])
      {
        FilterAppend(requests[..k], requests[k], IsRetained);
        assert requests[..k + 1] == requests[..k] + [requests[k]];
        if requests[k].state != Tombstone {
          count := count + 1;
        }
      }
      assert requests[..|requests|] == requests;
    }

    // freshId stands for the Uuid::new_v4 call.
    method Register(sessionId: Uuid, bindingId: Uuid, runtime: Runtime, freshId: Uuid)
      returns (registered: Option<Uuid>)
      modifies this
      ensures (Abs(), registered) == ClipboardPaste.Register(old(Abs()), sessionId, bindingId, runtime, freshId)
    {
      var count := RetainedRequestCount();
      if count >= QUEUE_CAPACITY {
        return None;
      }
      var captured := if sessionId in inputEpochs then inputEpochs[sessionId] else 0;
      inputEpochs := inputEpochs[sessionId := captured];
      requests := requests + [Request(freshId, sessionId, bindingId, captured, Some(runtime), None, None, 0, 0,
                                      None, "Preparing image", false, Preparing, 0, 0, 0)];
      BumpRevision();
      registered := Some(freshId);
    }

    method NoteTerminalInput(sessionId: Uuid) returns (epoch: nat)
      modifies this`inputEpochs
      ensures (Abs(), epoch) == ClipboardPaste.NoteTerminalInput(old(Abs()), sessionId)
    {
      epoch := if sessionId in inputEpochs then inputEpochs[sessionId] else 0;
      epoch := (epoch + 1) % U64_LIMIT;
      inputEpochs := inputEpochs[sessionId := epoch];
    }

    method MarkPrepared(id: Uuid, encoded: EncodedImage) returns (changed: bool)
      modifies this
      ensures (Abs(), changed) == ClipboardPaste.MarkPrepared(old(Abs()), id, encoded)
    {
      var found := RequestIndex(id);
      if found.None? || requests[found.value].state != Preparing {
        return false;
      }
      var request := requests[found.value];
      request := request.(bytesTotal := |encoded.pngBytes|, pngBytes := Some(encoded.pngBytes));
      request := request.(sourceWidth := encoded.width, sourceHeight := encoded.height);
      if !request.dismissed {
        request := request.(preview := Some(encoded.preview));
      }
      request := request.(detail := "Waiting to upload", state := Queued);
      requests := requests[found.value := request];
      BumpRevision();
      changed := true;
    }

    method MarkPreparationFailed(id: Uuid, error: string) returns (changed: bool)
      modifies this
      ensures (Abs(), changed) == ClipboardPaste.MarkPreparationFailed(old(Abs()), id, error)
    {
      var found := RequestIndex(id);
      if found.None? || requests[found.value].state != Preparing {
        return false;
      }
      requests := requests[found.value := ToError(requests[found.value], error)];
      BumpRevision();
      changed := true;
    }

    method FindQueued() returns (queued: Option<nat>)
      ensures queued == NextQueued(requests, 0)
    {
      var index := 0;
      while index < |requests|
        invariant index <= |requests|
        invariant NextQueued(requests, 0) == NextQueued(requests, index)
      {
        match requests[index].state {
          case Success(_) =>
          case Stale =>
          case Error =>
          case Tombstone =>
          case Queued =>
            return Some(index);
          case _ =>
            return None;
        }
        index := index + 1;
      }
      queued := None;
    }

    method TakeNextUpload() returns (job: Option<UploadJob>)
      modifies this
      ensures (Abs(), job) == ClipboardPaste.TakeNextUpload(old(Abs()))
    {
      if activeUploadId.Some? {
        return None;
      }
      var queued := FindQueued();
      if queued.None? {
        return None;
      }
      var request := requests[queued.value];
      if request.runtime.None? {
        requests := requests[queued.value := ToError(request, "Clipboard image upload runtime is unavailable")];
        BumpRevision();
        return None;
      }
      if request.pngBytes.None? {
        requests := requests[queued.value := ToError(request, "Prepared clipboard image data is unavailable")];
        BumpRevision();
        return None;
      }
      var runtime, pngBytes := request.runtime.value, request.pngBytes.value;
      request := request.(runtime := None, pngBytes := None, state := Uploading, detail := "Uploading image");
      requests := requests[queued.value := request];
      activeUploadId := Some(request.requestId);
      job := Some(UploadJob(request.requestId, request.sessionId, request.bindingId, runtime, pngBytes,
                            request.sourceWidth, request.sourceHeight, |pngBytes|));
      BumpRevision();
    }

    method MarkUploadProgress(id: Uuid, transferred: nat, total: nat, elapsedNanos: nat) returns (changed: bool)
      modifies this
      ensures (Abs(), changed) == ClipboardPaste.MarkUploadProgress(old(Abs()), id, transferred, total, elapsedNanos)
    {
      if activeUploadId != Some(id) {
        return false;
      }
      var found := RequestIndex(id);
      if found.None? {
        return false;
      }
      var request := requests[found.value];
      if request.state != Uploading || request.bytesTotal != total {
        return false;
      }
      var clamped := Min(transferred, total);
      if clamped < request.bytesTransferred {
        return false;
      }
      var rate := AverageBytesPerSecond(clamped, elapsedNanos);
      if request.bytesTransferred == clamped && request.bytesPerSecond == rate {
        return false;
      }
      requests := requests[found.value := request.(bytesTransferred := clamped, bytesPerSecond := rate)];
      BumpRevision();
      changed := true;
    }

    method MarkUploadSucceeded(id: Uuid, path: string) returns (completion: Completion)
      modifies this
      ensures (Abs(), completion) == ClipboardPaste.MarkUploadSucceeded(old(Abs()), id, path)
    {
      if activeUploadId != Some(id) {
        return Ignored;
      }
      activeUploadId := None;
      var found := RequestIndex(id);
      if found.None? {
        BumpRevision();
        return Ignored;
      }
      var request := requests[found.value];
      if request.state == Tombstone {
        requests := requests[..found.value] + requests[found.value + 1..];
        BumpRevision();
        return Ignored;
      }
      if request.state != Uploading {
        BumpRevision();
        return Ignored;
      }
      var currentEpoch := if request.sessionId in inputEpochs then inputEpochs[request.sessionId] else 0;
      request := request.(remotePath := Some(path));
      if currentEpoch == request.capturedInputEpoch {
        request := request.(state := AwaitingInsert, detail := "Upload complete");
        completion := AutoInsert(PathAction(id, request.sessionId, request.bindingId, path));
      } else {
        request := request.(state := Stale, dismissed := false, detail := STALE_DETAIL);
        completion := WentStale;
      }
      requests := requests[found.value := request];
      BumpRevision();
    }

    method MarkUploadFailed(id: Uuid, error: string) returns (changed: bool)
      modifies this
      ensures (Abs(), changed) == ClipboardPaste.MarkUploadFailed(old(Abs()), id, error)
    {
      if activeUploadId != Some(id) {
        return false;
      }
      activeUploadId := None;
      var found := RequestIndex(id);
      if found.None? {
        BumpRevision();
        return false;
      }
      if requests[found.value].state == Tombstone {
        requests := requests[..found.value] + requests[found.value + 1..];
        BumpRevision();
        return false;
      }
      if requests[found.value].state != Uploading {
        BumpRevision();
        return false;
      }
      requests := requests[found.value := ToError(requests[found.value], error)];
      BumpRevision();
      changed := true;
    }

    method MarkInserted(id: Uuid, now: nat) returns (changed: bool)
      modifies this
      ensures (Abs(), changed) == ClipboardPaste.MarkInserted(old(Abs()), id, now)
    {
      var found := RequestIndex(id);
      if found.None? {
        return false;
      }
      var request := requests[found.value];
      if request.state != AwaitingInsert && request.state != Stale {
        return false;
      }
      request := request.(preview := None, remotePath := None, detail := "Path pasted");
      request := request.(state := Success(now + SUCCESS_LIFETIME_NANOS));
      requests := requests[found.value := request];
      BumpRevision();
      changed := true;
    }

    method MarkConnectionInvalid(id: Uuid, error: string) returns (changed: bool)
      modifies this
      ensures (Abs(), changed) == ClipboardPaste.MarkConnectionInvalid(old(Abs()), id, error)
    {
      var found := RequestIndex(id);
      if found.None? {
        return false;
      }
      var request := requests[found.value];
      if request.state == Tombstone {
        if activeUploadId == Some(id) {
          activeUploadId := None;
        }
        requests := requests[..found.value] + requests[found.value + 1..];
        BumpRevision();
        return true;
      }
      if request.state.Success? || request.state == Error {
        return false;
      }
      if activeUploadId == Some(id) {
        activeUploadId := None;
      }
      requests := requests[found.value := ToError(request, error)];
      BumpRevision();
      changed := true;
    }

    method MarkCopyFailed(id: Uuid, error: string) returns (changed: bool)
      modifies this
      ensures (Abs(), changed) == ClipboardPaste.MarkCopyFailed(old(Abs()), id, error)
    {
      var found := RequestIndex(id);
      if found.None? {
        return false;
      }
      var request := requests[found.value];
      if request.state != Stale || request.remotePath.None? {
        return false;
      }
      requests := requests[found.value := request.(detail := BoundedDetail("Copy failed: " + error))];
      BumpRevision();
      changed := true;
    }

    method Dismiss(id: Uuid) returns (changed: bool)
      modifies this
      ensures (Abs(), changed) == ClipboardPaste.Dismiss(old(Abs()), id)
    {
      var found := RequestIndex(id);
      if found.None? {
        return false;
      }
      match requests[found.value].state {
        case Tombstone =>
          return false;
        case Success(_) =>
          requests := requests[..found.value] + requests[found.value + 1..];
        case Stale =>
          requests := requests[..found.value] + requests[found.value + 1..];
        case Error =>
          requests := requests[..found.value] + requests[found.value + 1..];
        case _ =>
          requests := requests[found.value := requests[found.value].(dismissed := true, preview := None)];
      }
      BumpRevision();
      changed := true;
    }

    method ExpireSuccess(now: nat) returns (changed: bool)
      modifies this
      ensures (Abs(), changed) == ClipboardPaste.ExpireSuccess(old(Abs()), now)
    {
      var original := requests;
      var kept := [];
      var keep := (r: Request) => OutlivesFeedback(r, now);
      for k := 0 to |original|
        invariant kept == Filter(original[..k], keep)
        invariant Abs() == old(Abs())
      {
        FilterAppend(original[..k], original[k], keep);
        assert original[..k + 1] == original[..k] + [original[k]];
        if !(original[k].state.Success? && original[k].state.expiresAt <= now) {
          kept := kept + [original[k]];
        }
      }
      assert original[..|original|] == original;
      requests := kept;
      if |requests| == |original| {
        return false;
      }
      BumpRevision();
      changed := true;
    }

    method RemoveSession(sessionId: Uuid) returns (changed: bool)
      modifies this
      ensures (Abs(), changed) == ClipboardPaste.RemoveSession(old(Abs()), sessionId)
    {
      var epochRemoved := sessionId in inputEpochs;
      inputEpochs := inputEpochs - {sessionId};
      var removedRequest := false;
      var retained := [];
      ghost var queue := requests;
      ghost var done := 0;
      while requests != []
        invariant done <= |queue| && requests == queue[done..]
        invariant retained == WithoutSession(queue[..done], sessionId, activeUploadId)
        invariant removedRequest <==> exists k :: 0 <= k < done && queue[k].sessionId == sessionId
        invariant activeUploadId == old(activeUploadId) && revision == old(revision)
        invariant inputEpochs == old(inputEpochs) - {sessionId}
        decreases |requests|
      {
        var request := requests[0];
        requests := requests[1..];
        WithoutSessionAppend(queue[..done], request, sessionId, activeUploadId);
        assert queue[..done + 1] == queue[..done] + [request];
        done := done + 1;
        if request.sessionId != sessionId {
          retained := retained + [request];
          continue;
        }
        removedRequest := true;
        if activeUploadId == Some(request.requestId) && request.state == Uploading {
          retained := retained + [ToTombstone(request)];
        }
      }
      assert queue[..done] == queue;
      assert removedRequest <==> exists r :: r in queue && r.sessionId == sessionId;
      requests := retained;
      if !epochRemoved && !removedRequest {
        return false;
      }
      BumpRevision();
      changed := true;
    }

    method VisibleItems(activeSessionId: Uuid) returns (items: seq<Projection>)
      ensures items == Projections(Abs(), activeSessionId)
    {
      items := [];
      var shown := (r: Request) => IsProjected(r, activeSessionId);
      for k := 0 to |requests|
        invariant var kept := Filter(requests[..k], shown);
                  |items| == |kept| && forall m :: 0 <= m < |kept| ==> items[m] == Project(kept[m])
      {
        FilterAppend(requests[..k], requests[k], shown);
        assert requests[..k + 1] == requests[..k] + [requests[k]];
        if IsProjected(requests[k], activeSessionId) {
          items := items + [Project(requests[k])];
        }
      }
      assert requests[..|requests|] == requests;
    }
  }

  lemma WithoutSessionAppend(rs: seq<Request>, r: Request, sessionId: Uuid, active: Option<Uuid>)
    ensures WithoutSession(rs + [r], sessionId, active)
            == WithoutSession(rs, sessionId, active)
               + (if SurvivesRemoval(r, sessionId, active) then [AfterRemoval(r, sessionId)] else [])
  {
    FilterAppend(rs, r, (x: Request) => SurvivesRemoval(x, sessionId, active));
  }
}
