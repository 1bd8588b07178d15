// What each event of the paste controller does, as a table over the event and the state of the request it
// names, and what a whole drain makes of the results it is given. Requests are addressed by id, not position.
module ClipboardPasteEffects {
  import opened Common
  import opened ClipboardPaste
  import opened ClipboardPasteInvariants

  // ---------------------------------------------------------------- the table

  // What an event makes of the request it names, and of the slot.
  datatype Effect = Same | To(after: Request, slot: Option<Uuid>) | Gone(slot: Option<Uuid>)

  function Shortened(text: string): string {
    text[..Min(|text|, 320)]
  }

  function AsFailed(r: Request, error: string): Request {
    r.(state := Error, detail := Shortened(error), dismissed := false,
       runtime := None, pngBytes := None, preview := None, remotePath := None)
  }

  function AsQueued(r: Request, encoded: EncodedImage): Request {
    r.(state := Queued, detail := "Waiting to upload", pngBytes := Some(encoded.pngBytes),
       bytesTotal := |encoded.pngBytes|, sourceWidth := encoded.width, sourceHeight := encoded.height,
       preview := if r.dismissed then None else Some(encoded.preview))
  }

  function AsUploading(r: Request): Request {
    r.(state := Uploading, detail := "Uploading image", runtime := None, pngBytes := None)
  }

  function AsUploaded(r: Request, path: string, undisturbed: bool): Request {
    if undisturbed then r.(state := AwaitingInsert, remotePath := Some(path), detail := "Upload complete")
    else r.(state := Stale, remotePath := Some(path), dismissed := false,
            detail := "Terminal input changed; choose where to use the uploaded path")
  }

  function AsInserted(r: Request, now: nat): Request {
    r.(state := Success(now + 3_200_000_000), detail := "Path pasted", remotePath := None, preview := None)
  }

  // Bytes per second, in whole bytes, as wide as 64 bits allow.
  predicate IsRate(rate: nat, bytes: nat, nanos: nat) {
    if bytes == 0 || nanos == 0 then rate == 0
    else if rate == U64_MAX then U64_MAX * nanos <= bytes * 1_000_000_000
    else rate * nanos <= bytes * 1_000_000_000 < (rate + 1) * nanos
  }

  lemma AverageIsRate(bytes: nat, nanos: nat)
    ensures IsRate(AverageBytesPerSecond(bytes, nanos), bytes, nanos)
    ensures AverageBytesPerSecond(bytes, nanos) <= U64_MAX
  {
    if bytes > 0 && nanos > 0 {
      var rate := bytes * 1_000_000_000 / nanos;
      assert rate * nanos <= bytes * 1_000_000_000 < (rate + 1) * nanos;
      if rate >= U64_MAX {
        MulLe(U64_MAX, rate, nanos);
      }
    }
  }

  predicate Accepts(r: Request, slot: Option<Uuid>, transferred: nat, total: nat) {
    && r.state == Uploading && slot == Some(r.requestId)
    && total == r.bytesTotal && r.bytesTransferred <= Min(transferred, total)
  }

  function Expected(c: Paste, e: Event, r: Request): Effect {
    var slot := c.activeUploadId;
    var active := slot == Some(r.requestId);
    match e
    case Prepared(_, encoded) => if r.state == Preparing then To(AsQueued(r, encoded), slot) else Same
    case PreparationFailed(_, error) => if r.state == Preparing then To(AsFailed(r, error), slot) else Same
    case TakeNext => if r.state == Queued && slot == None then To(AsUploading(r), Some(r.requestId)) else Same
    case Progress(_, transferred, total, nanos) =>
      var after := r.(bytesTransferred := Min(transferred, total),
                      bytesPerSecond := AverageBytesPerSecond(Min(transferred, total), nanos));
      if Accepts(r, slot, transferred, total) && after != r then To(after, slot) else Same
    case UploadSucceeded(_, path) =>
      if !active then Same
      else if r.state == Tombstone then Gone(None)
      else To(AsUploaded(r, path, r.sessionId in c.inputEpochs && c.inputEpochs[r.sessionId] == r.capturedInputEpoch), None)
    case UploadFailed(_, error) =>
      if !active then Same else if r.state == Tombstone then Gone(None) else To(AsFailed(r, error), None)
    case Inserted(_, now) => if r.state in {AwaitingInsert, Stale} then To(AsInserted(r, now), slot) else Same
    case ConnectionInvalid(_, error) =>
      if r.state.Success? || r.state == Error then Same
      else if r.state == Tombstone then Gone(None)
      else To(AsFailed(r, error), if active then None else slot)
    case CopyFailed(_, error) =>
      if r.state == Stale then To(r.(detail := Shortened("Copy failed: " + error)), slot) else Same
    case DismissItem(_) =>
      if r.state == Tombstone then Same
      else if r.state.Success? || r.state in {Stale, Error} then Gone(slot)
      else To(r.(dismissed := true, preview := None), slot)
    case _ => Same
  }

  // The request moves, every other request and every epoch stays, and the revision counts one change.
  ghost predicate Becomes(c: Paste, next: Paste, id: Uuid, after: Request) {
    && |next.requests| == |c.requests|
    && (forall k :: 0 <= k < |c.requests| ==>
                      next.requests[k] == if c.requests[k].requestId == id then after else c.requests[k])
    && next.inputEpochs == c.inputEpochs && next.revision == (c.revision + 1) % U64_LIMIT
  }

  function IdOtherThan(id: Uuid): Request -> bool {
    (r: Request) => r.requestId != id
  }

  ghost predicate Leaves(c: Paste, next: Paste, id: Uuid) {
    && next.requests == Filter(c.requests, IdOtherThan(id))
    && next.inputEpochs == c.inputEpochs && next.revision == (c.revision + 1) % U64_LIMIT
  }

  ghost predicate Realises(c: Paste, next: Paste, id: Uuid, effect: Effect) {
    match effect
    case Same => next == c
    case To(after, slot) => Becomes(c, next, id, after) && next.activeUploadId == slot
    case Gone(slot) => Leaves(c, next, id) && next.activeUploadId == slot
  }

  // ---------------------------------------------------------------- positions and ids

  lemma FoundAt(c: Paste, r: Request) returns (i: nat)
    requires Inv(c) && r in c.requests
    ensures i < |c.requests| && c.requests[i] == r && Find(c, r.requestId) == Some(i) && WellFormed(r)
    ensures forall k :: 0 <= k < |c.requests| && c.requests[k].requestId == r.requestId ==> k == i
  {
    i :| 0 <= i < |c.requests| && c.requests[i] == r;
    var found := Find(c, r.requestId);
    assert found.Some?;
  }

  lemma ReplacedBecomes(c: Paste, i: nat, after: Request, slot: Option<Uuid>)
    requires i < |c.requests|
    requires forall k :: 0 <= k < |c.requests| && c.requests[k].requestId == c.requests[i].requestId ==> k == i
    ensures Realises(c, Bump(Replace(c, i, after).(activeUploadId := slot)), c.requests[i].requestId, To(after, slot))
  {
  }

  lemma FilterAround(front: seq<Request>, r: Request, back: seq<Request>)
    requires forall x: Request :: x in front + back ==> x.requestId != r.requestId
    ensures Filter(front + [r] + back, IdOtherThan(r.requestId)) == front + back
  {
    var keep := IdOtherThan(r.requestId);
    FilterConcat(front + [r], back, keep);
    FilterAppend(front, r, keep);
    NoneDropped(front, r.requestId);
    NoneDropped(back, r.requestId);
  }

  lemma NoneDropped(rs: seq<Request>, id: Uuid)
    requires forall x :: x in rs ==> x.requestId != id
    ensures Filter(rs, IdOtherThan(id)) == rs
  {
    FilterAll(rs, IdOtherThan(id));
  }

  lemma OthersDiffer(rs: seq<Request>, i: nat, x: Request)
    requires i < |rs| && x in rs[..i] + rs[i + 1..]
    requires forall k :: 0 <= k < |rs| && rs[k].requestId == rs[i].requestId ==> k == i
    ensures x.requestId != rs[i].requestId
  {
    if x in rs[..i] {
      var k :| 0 <= k < i && rs[..i][k] == x;
      assert rs[k] == x;
    } else {
      var k :| 0 <= k < |rs[i + 1..]| && rs[i + 1..][k] == x;
      assert rs[i + 1 + k] == x;
    }
  }

  lemma FilterAllBut(rs: seq<Request>, i: nat)
    requires i < |rs|
    requires forall k :: 0 <= k < |rs| && rs[k].requestId == rs[i].requestId ==> k == i
    ensures Filter(rs, IdOtherThan(rs[i].requestId)) == rs[..i] + rs[i + 1..]
  {
    forall x: Request | x in rs[..i] + rs[i + 1..] ensures x.requestId != rs[i].requestId {
      OthersDiffer(rs, i, x);
    }
    FilterAround(rs[..i], rs[i], rs[i + 1..]);
    SplitAt(rs, i);
  }

  lemma SplitAt(rs: seq<Request>, i: nat)
    requires i < |rs|
    ensures rs == rs[..i] + [rs[i]] + rs[i + 1..]
  {
  }

  lemma RemovedLeaves(c: Paste, i: nat, slot: Option<Uuid>)
    requires i < |c.requests|
    requires forall k :: 0 <= k < |c.requests| && c.requests[k].requestId == c.requests[i].requestId ==> k == i
    ensures Realises(c, Bump(RemoveAt(c, i).(activeUploadId := slot)), c.requests[i].requestId, Gone(slot))
  {
    FilterAllBut(c.requests, i);
  }

  // ---------------------------------------------------------------- one event, one row of the table

  // next realises what the table says of e and r.
  ghost predicate Meets(c: Paste, e: Event, r: Request, next: Paste) {
    Realises(c, next, r.requestId, Expected(c, e, r))
  }

  lemma PreparedMeans(c: Paste, r: Request, encoded: EncodedImage)
    requires Inv(c) && r in c.requests
    ensures Meets(c, Event.Prepared(r.requestId, encoded), r, MarkPrepared(c, r.requestId, encoded).0)
    ensures MarkPrepared(c, r.requestId, encoded).1 == (r.state == Preparing)
  {
    var i := FoundAt(c, r);
    ReplacedBecomes(c, i, AsQueued(r, encoded), c.activeUploadId);
  }

  lemma PreparationFailedMeans(c: Paste, r: Request, error: string)
    requires Inv(c) && r in c.requests
    ensures Meets(c, PreparationFailed(r.requestId, error), r, MarkPreparationFailed(c, r.requestId, error).0)
    ensures MarkPreparationFailed(c, r.requestId, error).1 == (r.state == Preparing)
  {
    var i := FoundAt(c, r);
    ReplacedBecomes(c, i, AsFailed(r, error), c.activeUploadId);
  }

  lemma ProgressMeans(c: Paste, r: Request, transferred: nat, total: nat, nanos: nat)
    requires Inv(c) && r in c.requests
    ensures var e := Progress(r.requestId, transferred, total, nanos);
            var (next, changed) := MarkUploadProgress(c, r.requestId, transferred, total, nanos);
            Meets(c, e, r, next) && changed == (Expected(c, e, r) != Same)
  {
    var i := FoundAt(c, r);
    var bytes := Min(transferred, total);
    ReplacedBecomes(c, i, r.(bytesTransferred := bytes, bytesPerSecond := AverageBytesPerSecond(bytes, nanos)),
                    c.activeUploadId);
  }

  // In a reachable state the active id names an uploading request or a tombstone.
  lemma ActiveIsUploadingOrTombstone(c: Paste, r: Request)
    requires Inv(c) && r in c.requests
    ensures c.activeUploadId == Some(r.requestId) <==> r.state == Uploading || r.state == Tombstone
  {
  }

  lemma SucceededMeans(c: Paste, r: Request, path: string)
    requires Inv(c) && r in c.requests
    ensures Meets(c, UploadSucceeded(r.requestId, path), r, MarkUploadSucceeded(c, r.requestId, path).0)
    ensures MarkUploadSucceeded(c, r.requestId, path).1 ==
            if r.state != Uploading then Ignored
            else if c.inputEpochs[r.sessionId] == r.capturedInputEpoch
            then AutoInsert(PathAction(r.requestId, r.sessionId, r.bindingId, path))
            else WentStale
  {
    var i := FoundAt(c, r);
    ActiveIsUploadingOrTombstone(c, r);
    var undisturbed := r.sessionId in c.inputEpochs && c.inputEpochs[r.sessionId] == r.capturedInputEpoch;
    ReplacedBecomes(c, i, AsUploaded(r, path, undisturbed), None);
    RemovedLeaves(c, i, None);
  }

  lemma FailedMeans(c: Paste, r: Request, error: string)
    requires Inv(c) && r in c.requests
    ensures Meets(c, UploadFailed(r.requestId, error), r, MarkUploadFailed(c, r.requestId, error).0)
    ensures MarkUploadFailed(c, r.requestId, error).1 == (r.state == Uploading)
  {
    var i := FoundAt(c, r);
    ActiveIsUploadingOrTombstone(c, r);
    ReplacedBecomes(c, i, AsFailed(r, error), None);
    RemovedLeaves(c, i, None);
  }

  lemma InsertedMeans(c: Paste, r: Request, now: nat)
    requires Inv(c) && r in c.requests
    ensures Meets(c, Inserted(r.requestId, now), r, MarkInserted(c, r.requestId, now).0)
    ensures MarkInserted(c, r.requestId, now).1 == (r.state in {AwaitingInsert, Stale})
  {
    var i := FoundAt(c, r);
    ReplacedBecomes(c, i, AsInserted(r, now), c.activeUploadId);
  }

  lemma ConnectionInvalidMeans(c: Paste, r: Request, error: string)
    requires Inv(c) && r in c.requests
    ensures Meets(c, ConnectionInvalid(r.requestId, error), r, MarkConnectionInvalid(c, r.requestId, error).0)
    ensures MarkConnectionInvalid(c, r.requestId, error).1 == !(r.state.Success? || r.state == Error)
  {
    var i := FoundAt(c, r);
    ActiveIsUploadingOrTombstone(c, r);
    ReplacedBecomes(c, i, AsFailed(r, error), if c.activeUploadId == Some(r.requestId) then None else c.activeUploadId);
    RemovedLeaves(c, i, None);
  }

  lemma CopyFailedMeans(c: Paste, r: Request, error: string)
    requires Inv(c) && r in c.requests
    ensures Meets(c, CopyFailed(r.requestId, error), r, MarkCopyFailed(c, r.requestId, error).0)
    ensures MarkCopyFailed(c, r.requestId, error).1 == (r.state == Stale)
  {
    var i := FoundAt(c, r);
    ReplacedBecomes(c, i, r.(detail := Shortened("Copy failed: " + error)), c.activeUploadId);
  }

  lemma DismissMeans(c: Paste, r: Request)
    requires Inv(c) && r in c.requests
    ensures Meets(c, DismissItem(r.requestId), r, Dismiss(c, r.requestId).0)
    ensures Dismiss(c, r.requestId).1 == (r.state != Tombstone)
  {
    var i := FoundAt(c, r);
    ReplacedBecomes(c, i, r.(dismissed := true, preview := None), c.activeUploadId);
    RemovedLeaves(c, i, c.activeUploadId);
  }

  // The request a free slot goes to: queued, and everything ahead of it is finished.
  ghost predicate IsNext(c: Paste, i: int) {
    && 0 <= i < |c.requests| && c.requests[i].state == Queued
    && forall j :: 0 <= j < i ==> Finished(c.requests[j].state)
  }

  lemma ScanIsNext(c: Paste)
    requires Inv(c) && c.activeUploadId == None
    ensures var found := NextQueued(c.requests, 0);
            if found.Some? then IsNext(c, found.value) else forall i :: !IsNext(c, i)
  {
    if NextQueued(c.requests, 0).Some? {
      ScanFindsOwner(c);
    }
  }

  // The upload job carries the request's own runtime, bytes and size.
  predicate IsJobOf(job: Option<UploadJob>, r: Request) {
    && r.runtime.Some? && r.pngBytes.Some?
    && job == Some(UploadJob(r.requestId, r.sessionId, r.bindingId, r.runtime.value, r.pngBytes.value,
                             r.sourceWidth, r.sourceHeight, r.bytesTotal))
  }

  // The slot, when free, goes to the one request that only finished ones precede; else nothing happens.
  lemma TakeNextMeans(c: Paste)
    requires Inv(c)
    ensures var (next, job) := TakeNextUpload(c);
            if c.activeUploadId == None && exists i :: IsNext(c, i) then
              exists i :: IsNext(c, i) && Meets(c, TakeNext, c.requests[i], next) && IsJobOf(job, c.requests[i])
            else next == c && job == None
  {
    if c.activeUploadId == None {
      ScanIsNext(c);
      var found := NextQueued(c.requests, 0);
      if found.Some? {
        Starts(c, found.value);
      }
    }
  }

  lemma Starts(c: Paste, i: nat)
    requires Inv(c) && c.activeUploadId == None && NextQueued(c.requests, 0) == Some(i)
    ensures Meets(c, TakeNext, c.requests[i], TakeNextUpload(c).0) && IsJobOf(TakeNextUpload(c).1, c.requests[i])
  {
    ScanFindsOwner(c);
    assert c.requests[i] in c.requests;
    var k := FoundAt(c, c.requests[i]);
    ReplacedBecomes(c, i, AsUploading(c.requests[i]), Some(c.requests[i].requestId));
  }

  // Each event about a named request does to it what the table says, and nothing else.
  lemma NamedEventMeans(c: Paste, e: Event, r: Request, next: Paste)
    requires Inv(c) && r in c.requests && IsPointEvent(e) && !e.TakeNext? && e.requestId == r.requestId
    requires next == Step(c, e)
    ensures Realises(c, next, r.requestId, Expected(c, e, r))
  {
    match e
    case Prepared(_, encoded) => PreparedMeans(c, r, encoded);
    case PreparationFailed(_, error) => PreparationFailedMeans(c, r, error);
    case Progress(_, transferred, total, nanos) => ProgressMeans(c, r, transferred, total, nanos);
    case UploadSucceeded(_, path) => SucceededMeans(c, r, path);
    case UploadFailed(_, error) => FailedMeans(c, r, error);
    case Inserted(_, now) => InsertedMeans(c, r, now);
    case ConnectionInvalid(_, error) => ConnectionInvalidMeans(c, r, error);
    case CopyFailed(_, error) => CopyFailedMeans(c, r, error);
    case DismissItem(_) => DismissMeans(c, r);
  }

  // An event about an unknown request changes nothing, except that the end of an upload that lost its
  // request frees the slot.
  lemma UnknownEventMeans(c: Paste, e: Event)
    requires IsPointEvent(e) && !e.TakeNext? && forall r :: r in c.requests ==> r.requestId != e.requestId
    ensures Step(c, e) ==
            if (e.UploadSucceeded? || e.UploadFailed?) && c.activeUploadId == Some(e.requestId)
            then c.(activeUploadId := None, revision := (c.revision + 1) % U64_LIMIT) else c
  {
    var found := Find(c, e.requestId);
    assert found.None?;
  }

  // ---------------------------------------------------------------- the other events

  function NotTombstone(): Request -> bool {
    (r: Request) => !r.state.Tombstone?
  }

  // A paste is registered while fewer than eight are retained, with its session's epoch of that moment.
  lemma RegisterMeans(c: Paste, s: Uuid, binding: Uuid, runtime: Runtime, id: Uuid)
    ensures var (next, registered) := ClipboardPaste.Register(c, s, binding, runtime, id);
            if |Filter(c.requests, NotTombstone())| >= 8 then next == c && registered == None
            else
              var epoch := if s in c.inputEpochs then c.inputEpochs[s] else 0;
              && registered == Some(id) && |next.requests| == |c.requests| + 1
              && next.requests[..|c.requests|] == c.requests
              && next.requests[|c.requests|] == Request(id, s, binding, epoch, Some(runtime), None, None, 0, 0, None,
                                                        "Preparing image", false, Preparing, 0, 0, 0)
              && next.inputEpochs == c.inputEpochs[s := epoch] && next.activeUploadId == c.activeUploadId
              && next.revision == (c.revision + 1) % U64_LIMIT
  {
    FiltersAgree(c.requests, IsRetained, NotTombstone());
  }

  function NotDue(now: nat): Request -> bool {
    (r: Request) => match r.state case Success(expiresAt) => now < expiresAt case _ => true
  }

  // Expiry drops the successes whose time has come, and reports whether there were any.
  lemma ExpireMeans(c: Paste, now: nat)
    ensures var (next, changed) := ExpireSuccess(c, now);
            && next.requests == Filter(c.requests, NotDue(now))
            && changed == (exists r :: r in c.requests && r.state.Success? && r.state.expiresAt <= now)
            && next == c.(requests := next.requests, revision := if changed then (c.revision + 1) % U64_LIMIT else c.revision)
  {
    var keep := (r: Request) => OutlivesFeedback(r, now);
    FiltersAgree(c.requests, keep, NotDue(now));
    if forall r :: r in c.requests ==> keep(r) {
      FilterAll(c.requests, keep);
    } else {
      var r :| r in c.requests && !keep(r);
      FilterShrinks(c.requests, keep, r);
    }
  }

  // What a closed session leaves of a request: another session's is kept, its own active upload becomes a
  // tombstone, all its other ones go.
  predicate StaysAfterRemoval(r: Request, s: Uuid, slot: Option<Uuid>) {
    r.sessionId != s || (r.state == Uploading && slot == Some(r.requestId))
  }

  function AsTombstone(r: Request): Request {
    r.(state := Tombstone, dismissed := true, detail := "",
       runtime := None, pngBytes := None, preview := None, remotePath := None)
  }

  lemma RemovalMeans(c: Paste, s: Uuid) returns (idx: seq<nat>)
    ensures var (next, changed) := RemoveSession(c, s);
            && |idx| == |next.requests| && Embeds(idx, |c.requests|)
            && (forall k :: 0 <= k < |idx| ==>
                  var r := c.requests[idx[k]];
                  && StaysAfterRemoval(r, s, c.activeUploadId)
                  && next.requests[k] == if r.sessionId == s then AsTombstone(r) else r)
            && (forall i :: 0 <= i < |c.requests| && StaysAfterRemoval(c.requests[i], s, c.activeUploadId) ==> i in idx)
            && next.inputEpochs == (map t | t in c.inputEpochs && t != s :: c.inputEpochs[t])
            && next.activeUploadId == c.activeUploadId
            && changed == (s in c.inputEpochs || exists r :: r in c.requests && r.sessionId == s)
            && next.revision == if changed then (c.revision + 1) % U64_LIMIT else c.revision
  {
    idx := FilterPositions(c.requests, (r: Request) => SurvivesRemoval(r, s, c.activeUploadId));
  }

  // ---------------------------------------------------------------- what is shown

  // The item shown for a request, by its state.
  predicate IsItemOf(p: Projection, r: Request) {
    && p.requestId == r.requestId && p.preview == r.preview && p.detail == r.detail
    && p.sourceWidth == r.sourceWidth && p.sourceHeight == r.sourceHeight
    && p.bytesTransferred == r.bytesTransferred && p.bytesTotal == r.bytesTotal && p.bytesPerSecond == r.bytesPerSecond
    && p.status == (match r.state
                    case Preparing => "preparing"
                    case Queued => "queued"
                    case Uploading => "uploading"
                    case AwaitingInsert => "uploading"
                    case Success(_) => "success"
                    case Stale => "stale"
                    case Error => "error"
                    case Tombstone => "")
    && p.collapsed == r.state.Success?
  }

  predicate ShownIn(r: Request, s: Uuid) {
    r.sessionId == s && !r.dismissed && r.state != Tombstone
  }

  // A path can be taken exactly for a stale request of the session in view, and it is that request's own.
  lemma PasteActionExactly(c: Paste, r: Request, s: Uuid)
    requires Inv(c) && r in c.requests
    ensures StalePasteAction(c, r.requestId, s) ==
            if r.state == Stale && r.sessionId == s
            then Some(PathAction(r.requestId, r.sessionId, r.bindingId, r.remotePath.value)) else None
  {
    var i := FoundAt(c, r);
  }

  // A session's items are its requests that are neither hidden nor tombstones, in queue order, and an item
  // offers pasting and copying exactly when its path can be taken.
  lemma ItemsMean(c: Paste, s: Uuid) returns (idx: seq<nat>)
    requires Inv(c)
    ensures var items := Projections(c, s);
            && |idx| == |items| && Embeds(idx, |c.requests|)
            && (forall i :: 0 <= i < |c.requests| ==> (ShownIn(c.requests[i], s) <==> i in idx))
            && (forall k :: 0 <= k < |idx| ==> IsItemOf(items[k], c.requests[idx[k]]))
    ensures forall k :: 0 <= k < |idx| ==>
              var item, r := Projections(c, s)[k], c.requests[idx[k]];
              item.pasteEnabled == item.copyEnabled == StalePasteAction(c, r.requestId, s).Some?
  {
    idx := FilterPositions(c.requests, (r: Request) => IsProjected(r, s));
    forall k | 0 <= k < |idx|
      ensures ShownIn(c.requests[idx[k]], s)
      ensures StalePasteAction(c, c.requests[idx[k]].requestId, s).Some? == c.requests[idx[k]].state.Stale?
    {
      assert idx[k] in idx;
      assert c.requests[idx[k]] in c.requests;
      var i := FoundAt(c, c.requests[idx[k]]);
    }
  }
}
