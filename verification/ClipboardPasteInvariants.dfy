// One step of the controller: the events a caller can send, what every event keeps, and how each
// surviving request relates to the request it was before the event.
module ClipboardPasteInvariants {
  import opened Common
  import opened ClipboardPaste

  datatype Event =
    | Register(sessionId: Uuid, bindingId: Uuid, runtime: Runtime, freshId: Uuid)
    | NoteInput(sessionId: Uuid)
    | Prepared(requestId: Uuid, encoded: EncodedImage)
    | PreparationFailed(requestId: Uuid, error: string)
    | TakeNext
    | Progress(requestId: Uuid, transferred: nat, total: nat, elapsedNanos: nat)
    | UploadSucceeded(requestId: Uuid, path: string)
    | UploadFailed(requestId: Uuid, error: string)
    | Inserted(requestId: Uuid, now: nat)
    | ConnectionInvalid(requestId: Uuid, error: string)
    | CopyFailed(requestId: Uuid, error: string)
    | DismissItem(requestId: Uuid)
    | Expire(now: nat)
    | SessionRemoved(sessionId: Uuid)

  function Step(c: Paste, e: Event): Paste {
    match e
    case Register(s, b, rt, id) => ClipboardPaste.Register(c, s, b, rt, id).0
    case NoteInput(s) => NoteTerminalInput(c, s).0
    case Prepared(id, encoded) => MarkPrepared(c, id, encoded).0
    case PreparationFailed(id, error) => MarkPreparationFailed(c, id, error).0
    case TakeNext => TakeNextUpload(c).0
    case Progress(id, transferred, total, nanos) => MarkUploadProgress(c, id, transferred, total, nanos).0
    case UploadSucceeded(id, path) => MarkUploadSucceeded(c, id, path).0
    case UploadFailed(id, error) => MarkUploadFailed(c, id, error).0
    case Inserted(id, now) => MarkInserted(c, id, now).0
    case ConnectionInvalid(id, error) => MarkConnectionInvalid(c, id, error).0
    case CopyFailed(id, error) => MarkCopyFailed(c, id, error).0
    case DismissItem(id) => Dismiss(c, id).0
    case Expire(now) => ExpireSuccess(c, now).0
    case SessionRemoved(s) => RemoveSession(c, s).0
  }

  // What a caller learns from the two events whose results the run properties speak of.
  function StartedJob(c: Paste, e: Event): Option<UploadJob> {
    if e.TakeNext? then TakeNextUpload(c).1 else None
  }

  function CompletionOf(c: Paste, e: Event): Completion {
    if e.UploadSucceeded? then MarkUploadSucceeded(c, e.requestId, e.path).1 else Ignored
  }

  predicate Registers(c: Paste, e: Event) {
    e.Register? && RetainedCount(c.requests) < QUEUE_CAPACITY
  }

  // ---------------------------------------------------------------- the invariant

  // Request states that occupy the one upload slot or hold its place.
  predicate HoldsSlot(s: RequestState) {
    s.Uploading? || s.AwaitingInsert? || s.Tombstone?
  }

  predicate Finished(s: RequestState) {
    s.Success? || s.Stale? || s.Error?
  }

  predicate Waiting(s: RequestState) {
    s.Preparing? || s.Queued?
  }

  // Runtime, pixels and remote path are held exactly as the state demands.
  predicate OwnsWhatStateDemands(r: Request) {
    && (r.runtime.Some? <==> Waiting(r.state))
    && (r.pngBytes.Some? <==> r.state.Queued?)
    && (r.remotePath.Some? <==> r.state.AwaitingInsert? || r.state.Stale?)
    && (r.state.Error? || r.state.Success? || r.state.Tombstone? || r.state.Preparing? ==> r.preview.None?)
  }

  predicate WellFormed(r: Request) {
    && OwnsWhatStateDemands(r)
    && (r.dismissed ==> r.preview.None?)
    && (r.state.Stale? || r.state.Error? ==> !r.dismissed)
    && r.bytesTransferred <= r.bytesTotal
    && (Waiting(r.state) ==> r.bytesTransferred == 0)
    && (r.state.Queued? ==> r.pngBytes.Some? && |r.pngBytes.value| == r.bytesTotal)
    && |r.detail| <= MAX_DETAIL_CHARS
  }

  ghost predicate UniqueIds(rs: seq<Request>) {
    forall i, j :: 0 <= i < j < |rs| ==> rs[i].requestId != rs[j].requestId
  }

  // Everything queued ahead of the slot's holder is finished; so there is at most one holder.
  ghost predicate SlotOrder(rs: seq<Request>) {
    forall i, j :: 0 <= i < j < |rs| && HoldsSlot(rs[j].state) ==> Finished(rs[i].state)
  }

  // One direction only: an active id may have lost its request (see SecondRemovalDropsTombstone).
  ghost predicate ActiveAgrees(rs: seq<Request>, active: Option<Uuid>) {
    forall r :: r in rs ==> (r.state.Uploading? || r.state.Tombstone? <==> active == Some(r.requestId))
  }

  ghost predicate Inv(c: Paste) {
    && UniqueIds(c.requests)
    && SlotOrder(c.requests)
    && ActiveAgrees(c.requests, c.activeUploadId)
    && (forall r :: r in c.requests ==> WellFormed(r))
    && (forall r :: r in c.requests && r.state != Tombstone ==> r.sessionId in c.inputEpochs)
    && (forall s :: s in c.inputEpochs ==> c.inputEpochs[s] < U64_LIMIT)
    && (forall r :: r in c.requests ==> r.capturedInputEpoch < U64_LIMIT)
    && RetainedCount(c.requests) <= QUEUE_CAPACITY
    && c.revision < U64_LIMIT
  }

  // Uuid::new_v4 never repeats: a registration's id is neither queued nor active.
  ghost predicate Fresh(c: Paste, e: Event) {
    e.Register? ==>
      c.activeUploadId != Some(e.freshId) && forall r :: r in c.requests ==> r.requestId != e.freshId
  }

  // ---------------------------------------------------------------- how a request moves

  function Rank(s: RequestState): nat {
    match s
    case Preparing => 0
    case Queued => 1
    case Uploading => 2
    case AwaitingInsert => 3
    case Stale => 3
    case Success(_) => 4
    case Error => 4
    case Tombstone => 4
  }

  // What one event may do to a request that stays queued.
  predicate Succeeds(before: Request, after: Request) {
    && after.requestId == before.requestId
    && after.sessionId == before.sessionId
    && after.bindingId == before.bindingId
    && after.capturedInputEpoch == before.capturedInputEpoch
    && (after.state == before.state || Rank(before.state) < Rank(after.state))
    && before.bytesTransferred <= after.bytesTransferred
    && (before.state != Preparing ==> after.bytesTotal == before.bytesTotal)
    && (HoldsSlot(after.state) && !HoldsSlot(before.state) ==> before.state == Queued)
  }

  // after is an order-keeping selection of before's requests, each moved as Succeeds allows,
  // plus the newly registered request at the back.
  ghost predicate EvolvesVia(before: seq<Request>, after: seq<Request>, idx: seq<nat>, added: seq<Request>) {
    && |added| <= 1
    && |after| == |idx| + |added|
    && Embeds(idx, |before|)
    && (forall k :: 0 <= k < |idx| ==> Succeeds(before[idx[k]], after[k]))
    && after[|idx|..] == added
  }

  function Identity(n: nat): (idx: seq<nat>)
    ensures |idx| == n && forall k :: 0 <= k < n ==> idx[k] == k
  {
    seq(n, k requires 0 <= k < n => k)
  }

  function Skipping(n: nat, i: nat): (idx: seq<nat>)
    requires i < n
    ensures |idx| == n - 1 && forall k :: 0 <= k < n - 1 ==> idx[k] == if k < i then k else k + 1
  {
    seq(n - 1, k requires 0 <= k < n - 1 => if k < i then k else k + 1)
  }

  // ---------------------------------------------------------------- events on one request

  // The events that touch at most the request they name (TakeNext: the one the scan finds).
  predicate IsPointEvent(e: Event) {
    !e.Register? && !e.NoteInput? && !e.Expire? && !e.SessionRemoved?
  }

  // The request a point event advances or drops, when it changes the queue at all.
  function Target(c: Paste, e: Event): (i: Option<nat>)
    requires IsPointEvent(e)
    ensures i.Some? ==> i.value < |c.requests|
  {
    if e.TakeNext? then NextQueued(c.requests, 0) else Find(c, e.requestId)
  }

  // What the slot field may become when request r is the one that moves.
  predicate SlotMoves(active: Option<Uuid>, next: Option<Uuid>, id: Uuid) {
    next == active || (active in {None, Some(id)} && next in {None, Some(id)})
  }

  ghost predicate Advances(c: Paste, next: Paste, i: nat)
    requires i < |c.requests|
  {
    && |next.requests| == |c.requests|
    && var r := next.requests[i];
    && next == Bump(Replace(c, i, r).(activeUploadId := next.activeUploadId))
    && Succeeds(c.requests[i], r)
    && WellFormed(r)
    && r.state != Tombstone && c.requests[i].state != Tombstone
    && (r.state.Uploading? <==> next.activeUploadId == Some(r.requestId))
    && SlotMoves(c.activeUploadId, next.activeUploadId, r.requestId)
    && (Finished(c.requests[i].state) ==> Finished(r.state))
    && (HoldsSlot(r.state) && !HoldsSlot(c.requests[i].state) ==>
          forall j :: 0 <= j < i ==> Finished(c.requests[j].state))
  }

  ghost predicate Drops(c: Paste, next: Paste, i: nat)
    requires i < |c.requests|
  {
    && next == Bump(RemoveAt(c, i).(activeUploadId := next.activeUploadId))
    && SlotMoves(c.activeUploadId, next.activeUploadId, c.requests[i].requestId)
    && next.activeUploadId != Some(c.requests[i].requestId)
  }

  // The active upload's request is gone; only the slot is freed.
  ghost predicate FreesOrphan(c: Paste, next: Paste) {
    && next == Bump(c.(activeUploadId := None))
    && c.activeUploadId.Some?
    && forall r :: r in c.requests ==> c.activeUploadId != Some(r.requestId)
  }

  ghost predicate PointStep(c: Paste, e: Event, next: Paste)
    requires IsPointEvent(e)
  {
    || next == c
    || FreesOrphan(c, next)
    || (Target(c, e).Some? && Advances(c, next, Target(c, e).value))
    || (Target(c, e).Some? && Drops(c, next, Target(c, e).value))
  }

  // In a reachable state the scan's two missing-data branches cannot be taken, and the request it
  // finds has only finished requests ahead of it.
  lemma ScanFindsOwner(c: Paste)
    requires Inv(c) && c.activeUploadId.None? && NextQueued(c.requests, 0).Some?
    ensures var q := NextQueued(c.requests, 0).value;
            && c.requests[q].runtime.Some? && c.requests[q].pngBytes.Some?
            && forall j :: 0 <= j < q ==> Finished(c.requests[j].state)
  {
    var q := NextQueued(c.requests, 0).value;
    forall j | 0 <= j < q ensures Finished(c.requests[j].state) {
      assert c.requests[j] in c.requests;
    }
    assert c.requests[q] in c.requests;
  }

  lemma TakeNextIsPoint(c: Paste)
    requires Inv(c)
    ensures PointStep(c, TakeNext, TakeNextUpload(c).0)
  {
    if c.activeUploadId.None? && NextQueued(c.requests, 0).Some? {
      ScanFindsOwner(c);
      var q := NextQueued(c.requests, 0).value;
      assert c.requests[q] in c.requests && WellFormed(c.requests[q]);
      assert Advances(c, TakeNextUpload(c).0, q);
    }
  }

  lemma FoundIsWellFormed(c: Paste, id: Uuid)
    requires Inv(c)
    ensures Find(c, id).Some? ==> c.requests[Find(c, id).value] in c.requests && WellFormed(c.requests[Find(c, id).value])
  {
  }

  // What a success makes of an uploading request.
  function Completed(r: Request, path: string, inputEpoch: nat): Request {
    if inputEpoch == r.capturedInputEpoch
    then r.(remotePath := Some(path), state := AwaitingInsert, detail := "Upload complete")
    else r.(remotePath := Some(path), state := Stale, dismissed := false, detail := STALE_DETAIL)
  }

  lemma CompletedAdvances(r: Request, path: string, inputEpoch: nat)
    requires WellFormed(r) && r.state == Uploading
    ensures var after := Completed(r, path, inputEpoch);
            && Succeeds(r, after) && WellFormed(after) && after.state in {AwaitingInsert, Stale}
  {
  }

  lemma SuccessOfUploading(c: Paste, id: Uuid, path: string, i: nat)
    requires Inv(c) && c.activeUploadId == Some(id) && Find(c, id) == Some(i) && c.requests[i].state == Uploading
    ensures Advances(c, MarkUploadSucceeded(c, id, path).0, i)
  {
    var r := c.requests[i];
    var epoch := EpochOf(c.inputEpochs, r.sessionId);
    FoundIsWellFormed(c, id);
    CompletedAdvances(r, path, epoch);
    assert MarkUploadSucceeded(c, id, path).0 == Bump(Replace(c.(activeUploadId := None), i, Completed(r, path, epoch)));
  }

  lemma SuccessOfTombstone(c: Paste, id: Uuid, path: string, i: nat)
    requires c.activeUploadId == Some(id) && Find(c, id) == Some(i) && c.requests[i].state == Tombstone
    ensures Drops(c, MarkUploadSucceeded(c, id, path).0, i)
  {
  }

  lemma SuccessOfMissing(c: Paste, id: Uuid, path: string)
    requires c.activeUploadId == Some(id) && Find(c, id) == None
    ensures FreesOrphan(c, MarkUploadSucceeded(c, id, path).0)
  {
  }

  lemma SucceededIsPoint(c: Paste, id: Uuid, path: string)
    requires Inv(c)
    ensures PointStep(c, UploadSucceeded(id, path), MarkUploadSucceeded(c, id, path).0)
  {
    if c.activeUploadId == Some(id) {
      var found := Find(c, id);
      FoundIsWellFormed(c, id);
      if found.None? {
        SuccessOfMissing(c, id, path);
      } else if c.requests[found.value].state == Tombstone {
        SuccessOfTombstone(c, id, path, found.value);
      } else {
        SuccessOfUploading(c, id, path, found.value);
      }
    }
  }

  lemma FailedIsPoint(c: Paste, id: Uuid, error: string)
    requires Inv(c)
    ensures PointStep(c, UploadFailed(id, error), MarkUploadFailed(c, id, error).0)
  {
    FoundIsWellFormed(c, id);
  }

  lemma PreparedIsPoint(c: Paste, id: Uuid, encoded: EncodedImage)
    requires Inv(c)
    ensures PointStep(c, Prepared(id, encoded), MarkPrepared(c, id, encoded).0)
  {
    FoundIsWellFormed(c, id);
  }

  lemma PreparationFailedIsPoint(c: Paste, id: Uuid, error: string)
    requires Inv(c)
    ensures PointStep(c, PreparationFailed(id, error), MarkPreparationFailed(c, id, error).0)
  {
    FoundIsWellFormed(c, id);
  }

  lemma ProgressIsPoint(c: Paste, id: Uuid, transferred: nat, total: nat, nanos: nat)
    requires Inv(c)
    ensures PointStep(c, Progress(id, transferred, total, nanos), MarkUploadProgress(c, id, transferred, total, nanos).0)
  {
    FoundIsWellFormed(c, id);
  }

  lemma InsertedIsPoint(c: Paste, id: Uuid, now: nat)
    requires Inv(c)
    ensures PointStep(c, Inserted(id, now), MarkInserted(c, id, now).0)
  {
    FoundIsWellFormed(c, id);
  }

  lemma ConnectionInvalidIsPoint(c: Paste, id: Uuid, error: string)
    requires Inv(c)
    ensures PointStep(c, ConnectionInvalid(id, error), MarkConnectionInvalid(c, id, error).0)
  {
    FoundIsWellFormed(c, id);
  }

  lemma CopyFailedIsPoint(c: Paste, id: Uuid, error: string)
    requires Inv(c)
    ensures PointStep(c, CopyFailed(id, error), MarkCopyFailed(c, id, error).0)
  {
    FoundIsWellFormed(c, id);
  }

  lemma DismissIsPoint(c: Paste, id: Uuid)
    requires Inv(c)
    ensures PointStep(c, DismissItem(id), Dismiss(c, id).0)
  {
    FoundIsWellFormed(c, id);
  }

  lemma PointEventIsPointStep(c: Paste, e: Event)
    requires Inv(c) && IsPointEvent(e)
    ensures PointStep(c, e, Step(c, e))
  {
    match e
    case TakeNext => TakeNextIsPoint(c);
    case UploadSucceeded(id, path) => SucceededIsPoint(c, id, path);
    case UploadFailed(id, error) => FailedIsPoint(c, id, error);
    case Prepared(id, encoded) => PreparedIsPoint(c, id, encoded);
    case PreparationFailed(id, error) => PreparationFailedIsPoint(c, id, error);
    case Progress(id, transferred, total, nanos) => ProgressIsPoint(c, id, transferred, total, nanos);
    case Inserted(id, now) => InsertedIsPoint(c, id, now);
    case ConnectionInvalid(id, error) => ConnectionInvalidIsPoint(c, id, error);
    case CopyFailed(id, error) => CopyFailedIsPoint(c, id, error);
    case DismissItem(id) => DismissIsPoint(c, id);
  }

  lemma AdvanceEvolves(c: Paste, next: Paste, i: nat)
    requires i < |c.requests| && Advances(c, next, i)
    ensures EvolvesVia(c.requests, next.requests, Identity(|c.requests|), [])
  {
  }

  lemma DropEvolves(c: Paste, next: Paste, i: nat)
    requires i < |c.requests| && Drops(c, next, i)
    ensures EvolvesVia(c.requests, next.requests, Skipping(|c.requests|, i), [])
  {
    assert next.requests[|c.requests| - 1..] == [];
  }

  lemma PointEvolves(c: Paste, e: Event) returns (idx: seq<nat>)
    requires Inv(c) && IsPointEvent(e)
    ensures EvolvesVia(c.requests, Step(c, e).requests, idx, [])
  {
    PointEventIsPointStep(c, e);
    idx := Identity(|c.requests|);
    var next := Step(c, e);
    if next != c && !FreesOrphan(c, next) {
      var i := Target(c, e).value;
      if Advances(c, next, i) {
        AdvanceEvolves(c, next, i);
      } else {
        DropEvolves(c, next, i);
        idx := Skipping(|c.requests|, i);
      }
    }
  }

  lemma ExpireEvolves(c: Paste, now: nat) returns (idx: seq<nat>)
    ensures EvolvesVia(c.requests, ExpireSuccess(c, now).0.requests, idx, [])
    ensures forall k :: 0 <= k < |idx| ==> c.requests[idx[k]] == ExpireSuccess(c, now).0.requests[k]
  {
    idx := FilterEmbeds(c.requests, (r: Request) => OutlivesFeedback(r, now));
  }

  lemma RemovedSucceeds(r: Request, sessionId: Uuid, active: Option<Uuid>)
    requires WellFormed(r) && SurvivesRemoval(r, sessionId, active)
    ensures Succeeds(r, AfterRemoval(r, sessionId))
  {
  }

  lemma RemovalIndices(c: Paste, sessionId: Uuid) returns (idx: seq<nat>)
    ensures |idx| == |RemoveSession(c, sessionId).0.requests| && Embeds(idx, |c.requests|)
    ensures forall k :: 0 <= k < |idx| ==>
                          && SurvivesRemoval(c.requests[idx[k]], sessionId, c.activeUploadId)
                          && RemoveSession(c, sessionId).0.requests[k] == AfterRemoval(c.requests[idx[k]], sessionId)
  {
    idx := FilterIndices(c.requests, (r: Request) => SurvivesRemoval(r, sessionId, c.activeUploadId));
  }

  lemma RemovalEvolves(c: Paste, sessionId: Uuid) returns (idx: seq<nat>)
    requires forall r :: r in c.requests ==> WellFormed(r)
    ensures EvolvesVia(c.requests, RemoveSession(c, sessionId).0.requests, idx, [])
    ensures forall k :: 0 <= k < |idx| ==>
                          && SurvivesRemoval(c.requests[idx[k]], sessionId, c.activeUploadId)
                          && RemoveSession(c, sessionId).0.requests[k] == AfterRemoval(c.requests[idx[k]], sessionId)
  {
    idx := RemovalIndices(c, sessionId);
    forall k | 0 <= k < |idx|
      ensures Succeeds(c.requests[idx[k]], RemoveSession(c, sessionId).0.requests[k])
    {
      assert c.requests[idx[k]] in c.requests;
      RemovedSucceeds(c.requests[idx[k]], sessionId, c.activeUploadId);
    }
  }

  lemma RegisterEvolves(c: Paste, e: Event)
    requires Registers(c, e)
    ensures EvolvesVia(c.requests, Step(c, e).requests, Identity(|c.requests|),
                       [NewRequest(c, e.sessionId, e.bindingId, e.runtime, e.freshId)])
  {
  }

  // Every event keeps, drops or advances requests, in order, and only Register adds one.
  lemma StepEvolves(c: Paste, e: Event) returns (idx: seq<nat>, added: seq<Request>)
    requires Inv(c)
    ensures EvolvesVia(c.requests, Step(c, e).requests, idx, added)
    ensures added == if Registers(c, e) then [NewRequest(c, e.sessionId, e.bindingId, e.runtime, e.freshId)] else []
  {
    idx, added := Identity(|c.requests|), [];
    if IsPointEvent(e) {
      idx := PointEvolves(c, e);
    } else if e.Expire? {
      idx := ExpireEvolves(c, e.now);
    } else if e.SessionRemoved? {
      idx := RemovalEvolves(c, e.sessionId);
    } else if Registers(c, e) {
      added := [NewRequest(c, e.sessionId, e.bindingId, e.runtime, e.freshId)];
      RegisterEvolves(c, e);
    } else {
      assert Step(c, e).requests == c.requests;
    }
  }

  // ---------------------------------------------------------------- what every event keeps

  lemma RetainedSplit(a: seq<Request>, r: Request, b: seq<Request>)
    ensures RetainedCount(a + [r] + b) == RetainedCount(a) + (if IsRetained(r) then 1 else 0) + RetainedCount(b)
    ensures RetainedCount(a + b) == RetainedCount(a) + RetainedCount(b)
  {
    FilterConcat(a + [r], b, IsRetained);
    FilterAppend(a, r, IsRetained);
    FilterConcat(a, b, IsRetained);
  }

  lemma RetainedAt(rs: seq<Request>, i: nat, r: Request)
    requires i < |rs|
    ensures IsRetained(r) == IsRetained(rs[i]) ==> RetainedCount(rs[i := r]) == RetainedCount(rs)
    ensures RetainedCount(rs[..i] + rs[i + 1..]) <= RetainedCount(rs)
  {
    RetainedSplit(rs[..i], rs[i], rs[i + 1..]);
    RetainedSplit(rs[..i], r, rs[i + 1..]);
    assert rs == rs[..i] + [rs[i]] + rs[i + 1..];
    assert rs[i := r] == rs[..i] + [r] + rs[i + 1..];
  }

  lemma AdvanceKeepsOrder(c: Paste, next: Paste, i: nat)
    requires Inv(c) && i < |c.requests| && Advances(c, next, i)
    ensures UniqueIds(next.requests) && SlotOrder(next.requests)
  {
    forall j, k | 0 <= j < k < |next.requests| && HoldsSlot(next.requests[k].state)
      ensures Finished(next.requests[j].state)
    {
      assert j != i ==> next.requests[j] == c.requests[j];
    }
  }

  lemma AdvanceKeepsInv(c: Paste, next: Paste, i: nat)
    requires Inv(c) && i < |c.requests| && Advances(c, next, i)
    ensures Inv(next)
  {
    AdvanceKeepsOrder(c, next, i);
    RetainedAt(c.requests, i, next.requests[i]);
    forall r | r in next.requests
      ensures r.state.Uploading? || r.state.Tombstone? <==> next.activeUploadId == Some(r.requestId)
      ensures WellFormed(r) && r.capturedInputEpoch < U64_LIMIT
      ensures r.state != Tombstone ==> r.sessionId in next.inputEpochs
    {
      var k :| 0 <= k < |next.requests| && next.requests[k] == r;
      assert c.requests[k] in c.requests;
      assert k != i ==> c.requests[k].requestId != c.requests[i].requestId;
    }
  }

  lemma DropKeepsOrder(c: Paste, next: Paste, i: nat)
    requires Inv(c) && i < |c.requests| && Drops(c, next, i)
    ensures UniqueIds(next.requests) && SlotOrder(next.requests)
  {
    var idx := Skipping(|c.requests|, i);
    forall j, k | 0 <= j < k < |next.requests|
      ensures next.requests[j].requestId != next.requests[k].requestId
      ensures HoldsSlot(next.requests[k].state) ==> Finished(next.requests[j].state)
    {
      assert next.requests[j] == c.requests[idx[j]] && next.requests[k] == c.requests[idx[k]];
    }
  }

  lemma DropKeepsActive(c: Paste, next: Paste, i: nat)
    requires Inv(c) && i < |c.requests| && Drops(c, next, i)
    ensures ActiveAgrees(next.requests, next.activeUploadId)
    ensures forall r :: r in next.requests ==> r in c.requests
  {
    var idx := Skipping(|c.requests|, i);
    forall r | r in next.requests
      ensures r in c.requests
      ensures r.state.Uploading? || r.state.Tombstone? <==> next.activeUploadId == Some(r.requestId)
    {
      var k :| 0 <= k < |next.requests| && next.requests[k] == r;
      assert c.requests[idx[k]] == r;
    }
  }

  lemma DropKeepsInv(c: Paste, next: Paste, i: nat)
    requires Inv(c) && i < |c.requests| && Drops(c, next, i)
    ensures Inv(next)
  {
    DropKeepsOrder(c, next, i);
    DropKeepsActive(c, next, i);
    RetainedAt(c.requests, i, c.requests[i]);
  }

  // Selecting and advancing requests in order cannot raise the retained count.
  lemma {:induction false} RetainedSelected(before: seq<Request>, after: seq<Request>, idx: seq<nat>)
    requires |after| == |idx| && Embeds(idx, |before|)
    requires forall k :: 0 <= k < |idx| && IsRetained(after[k]) ==> IsRetained(before[idx[k]])
    ensures RetainedCount(after) <= RetainedCount(before)
    decreases |after|
  {
    if after != [] {
      var last := |after| - 1;
      var m := idx[last];
      RetainedSelected(before[..m], after[..last], idx[..last]);
      RetainedSplit(before[..m], before[m], before[m + 1..]);
      assert before == before[..m] + [before[m]] + before[m + 1..];
      RetainedSplit(after[..last], after[last], []);
      assert after == after[..last] + [after[last]] + [];
    }
  }

  lemma SelectionKeepsInv(c: Paste, next: Paste, idx: seq<nat>)
    requires Inv(c)
    requires |next.requests| == |idx| && Embeds(idx, |c.requests|)
    requires forall k :: 0 <= k < |idx| ==>
                           || next.requests[k] == c.requests[idx[k]]
                           || (c.requests[idx[k]].state == Uploading
                               && next.requests[k] == ToTombstone(c.requests[idx[k]]))
    requires next.activeUploadId == c.activeUploadId && next.revision < U64_LIMIT
    requires forall r :: r in next.requests && r.state != Tombstone ==> r.sessionId in next.inputEpochs
    requires forall s :: s in next.inputEpochs ==> next.inputEpochs[s] < U64_LIMIT
    ensures Inv(next)
  {
    RetainedSelected(c.requests, next.requests, idx);
    forall r | r in next.requests
      ensures r.state.Uploading? || r.state.Tombstone? <==> next.activeUploadId == Some(r.requestId)
      ensures WellFormed(r) && r.capturedInputEpoch < U64_LIMIT
    {
      var k :| 0 <= k < |next.requests| && next.requests[k] == r;
      assert c.requests[idx[k]] in c.requests;
    }
    SelectionKeepsOrder(c.requests, next.requests, idx);
  }

  lemma SelectionKeepsOrder(before: seq<Request>, after: seq<Request>, idx: seq<nat>)
    requires SlotOrder(before) && UniqueIds(before)
    requires |after| == |idx| && Embeds(idx, |before|)
    requires forall k :: 0 <= k < |idx| ==>
                           || after[k] == before[idx[k]]
                           || (before[idx[k]].state == Uploading && after[k] == ToTombstone(before[idx[k]]))
    ensures SlotOrder(after) && UniqueIds(after)
  {
    forall j, k | 0 <= j < k < |after|
      ensures after[j].requestId != after[k].requestId
      ensures HoldsSlot(after[k].state) ==> Finished(after[j].state)
    {
      assert idx[j] < idx[k];
    }
  }

  lemma ExpireKeepsInv(c: Paste, now: nat)
    requires Inv(c)
    ensures Inv(ExpireSuccess(c, now).0)
  {
    var idx := ExpireEvolves(c, now);
    SelectionKeepsInv(c, ExpireSuccess(c, now).0, idx);
  }

  lemma RemovalKeepsInv(c: Paste, sessionId: Uuid)
    requires Inv(c)
    ensures Inv(RemoveSession(c, sessionId).0)
  {
    var next := RemoveSession(c, sessionId).0;
    var idx := RemovalEvolves(c, sessionId);
    forall r | r in next.requests && r.state != Tombstone ensures r.sessionId in next.inputEpochs {
      var k :| 0 <= k < |next.requests| && next.requests[k] == r;
      assert c.requests[idx[k]] in c.requests;
    }
    SelectionKeepsInv(c, next, idx);
  }

  lemma AppendKeepsQueue(rs: seq<Request>, active: Option<Uuid>, added: Request)
    requires UniqueIds(rs) && SlotOrder(rs) && ActiveAgrees(rs, active)
    requires added.state == Preparing && active != Some(added.requestId)
    requires forall r :: r in rs ==> r.requestId != added.requestId
    ensures UniqueIds(rs + [added]) && SlotOrder(rs + [added]) && ActiveAgrees(rs + [added], active)
  {
    forall i | 0 <= i < |rs| ensures (rs + [added])[i] == rs[i] && rs[i] in rs {
    }
  }

  lemma RegisterKeepsInv(c: Paste, e: Event)
    requires Inv(c) && Registers(c, e) && Fresh(c, e)
    ensures Inv(Step(c, e))
  {
    var added := NewRequest(c, e.sessionId, e.bindingId, e.runtime, e.freshId);
    AppendKeepsQueue(c.requests, c.activeUploadId, added);
    FilterAppend(c.requests, added, IsRetained);
    AppendedKeepsInv(c, Step(c, e), added);
  }

  lemma AppendedKeepsInv(c: Paste, next: Paste, added: Request)
    requires Inv(c) && next.requests == c.requests + [added]
    requires WellFormed(added) && added.capturedInputEpoch < U64_LIMIT && added.sessionId in next.inputEpochs
    requires forall s :: s in c.inputEpochs ==> s in next.inputEpochs
    requires forall s :: s in next.inputEpochs ==> next.inputEpochs[s] < U64_LIMIT
    requires UniqueIds(next.requests) && SlotOrder(next.requests) && ActiveAgrees(next.requests, next.activeUploadId)
    requires RetainedCount(next.requests) <= QUEUE_CAPACITY && next.revision < U64_LIMIT
    ensures Inv(next)
  {
  }

  lemma PointKeepsInv(c: Paste, e: Event, next: Paste)
    requires Inv(c) && IsPointEvent(e) && PointStep(c, e, next)
    ensures Inv(next)
  {
    if next != c && !FreesOrphan(c, next) {
      var i := Target(c, e).value;
      if Advances(c, next, i) {
        AdvanceKeepsInv(c, next, i);
      } else {
        DropKeepsInv(c, next, i);
      }
    }
  }

  // Every operation of the controller keeps the invariant.
  lemma StepKeepsInv(c: Paste, e: Event)
    requires Inv(c) && Fresh(c, e)
    ensures Inv(Step(c, e))
  {
    if IsPointEvent(e) {
      PointEventIsPointStep(c, e);
      PointKeepsInv(c, e, Step(c, e));
    } else {
      OtherEventKeepsInv(c, e);
    }
  }

  lemma OtherEventKeepsInv(c: Paste, e: Event)
    requires Inv(c) && Fresh(c, e) && !IsPointEvent(e)
    ensures Inv(Step(c, e))
  {
    if e.Expire? {
      ExpireKeepsInv(c, e.now);
    } else if e.SessionRemoved? {
      RemovalKeepsInv(c, e.sessionId);
    } else if Registers(c, e) {
      RegisterKeepsInv(c, e);
    }
  }

  // What the invariant means for the queue as a whole: at most one request is uploading, awaiting
  // insertion or a tombstone; everything ahead of it is finished; and with eight retained requests
  // at most, the queue never exceeds nine entries.
  lemma {:induction false} SlotOrderBoundsTombstones(rs: seq<Request>)
    requires SlotOrder(rs)
    ensures |rs| <= RetainedCount(rs) + 1
    ensures (forall r :: r in rs ==> r.state != Tombstone) ==> |rs| == RetainedCount(rs)
  {
    if rs != [] {
      var front := rs[..|rs| - 1];
      var last := rs[|rs| - 1];
      assert forall i :: 0 <= i < |front| ==> front[i] == rs[i];
      SlotOrderBoundsTombstones(front);
      assert rs == front + [last];
      FilterAppend(front, last, IsRetained);
      if last.state == Tombstone {
        NoTombstoneBefore(front, last);
      }
      assert forall r :: r in front ==> r in rs;
    }
  }

  lemma NoTombstoneBefore(front: seq<Request>, last: Request)
    requires SlotOrder(front + [last]) && last.state == Tombstone
    ensures forall r :: r in front ==> r.state != Tombstone
  {
    var rs := front + [last];
    forall r | r in front ensures r.state != Tombstone {
      var i :| 0 <= i < |front| && front[i] == r;
      assert HoldsSlot(rs[|front|].state) && Finished(rs[i].state);
    }
  }

  lemma InvariantConsequences(c: Paste)
    requires Inv(c)
    ensures |c.requests| <= QUEUE_CAPACITY + 1
    ensures forall i, j :: 0 <= i < j < |c.requests| ==>
                             !HoldsSlot(c.requests[i].state) || !HoldsSlot(c.requests[j].state)
    ensures forall r :: r in c.requests && (r.state.Stale? || r.state.Error?) ==> IsProjected(r, r.sessionId)
    ensures forall r :: r in c.requests && r.state.Stale? ==>
                          StalePasteAction(c, r.requestId, r.sessionId)
                          == Some(PathAction(r.requestId, r.sessionId, r.bindingId, r.remotePath.value))
  {
    SlotOrderBoundsTombstones(c.requests);
    forall r | r in c.requests && r.state.Stale?
      ensures StalePasteAction(c, r.requestId, r.sessionId)
              == Some(PathAction(r.requestId, r.sessionId, r.bindingId, r.remotePath.value))
    {
      var i :| 0 <= i < |c.requests| && c.requests[i] == r;
      var f := Find(c, r.requestId);
      assert f.Some?;
      assert f.value == i;
    }
  }

  // With the slot free, a queued request waits only behind an earlier one that is still preparing or
  // still being inserted; otherwise the oldest unfinished request starts, with its own runtime and bytes.
  lemma FreeSlotStartsOldestUnfinished(c: Paste, q: nat)
    requires Inv(c) && c.activeUploadId.None?
    requires q < |c.requests| && c.requests[q].state == Queued
    requires forall j :: 0 <= j < q ==> c.requests[j].state != Queued
    ensures TakeNextUpload(c).1.Some? <==>
            forall j :: 0 <= j < q ==> !c.requests[j].state.Preparing? && !c.requests[j].state.AwaitingInsert?
    ensures TakeNextUpload(c).1.Some? ==>
              var r := c.requests[q];
              && TakeNextUpload(c).1.value == JobFor(r, r.runtime.value, r.pngBytes.value)
              && TakeNextUpload(c).1.value.encodedBytes == r.bytesTotal
              && TakeNextUpload(c).0.requests[q].state == Uploading
  {
    var found := NextQueued(c.requests, 0);
    if found.Some? {
      ScanFindsOwner(c);
      assert c.requests[found.value] in c.requests;
      assert found.value == q;
    } else {
      var b :| 0 <= b < q && !SkippedByScan(c.requests[b].state) && c.requests[b].state != Queued;
      assert c.requests[b] in c.requests;
    }
  }

  // ---------------------------------------------------------------- what frees the slot

  // Only these reports about the active upload may free the slot.
  predicate ReleasesSlot(e: Event, id: Uuid) {
    (e.UploadSucceeded? || e.UploadFailed? || e.ConnectionInvalid?) && e.requestId == id
  }

  lemma SlotStep(c: Paste, e: Event, id: Uuid)
    requires c.activeUploadId == Some(id) && !ReleasesSlot(e, id)
    ensures Step(c, e).activeUploadId == Some(id)
  {
  }
}
