// The clipboard image paste controller as a transition system on values
// (src/app/clipboard_image_paste.rs). ClipboardPasteController.dfy proves the stateful class
// against these functions; the run properties are proved about them.
module ClipboardPaste {
  import opened Common

  const QUEUE_CAPACITY: nat := 8
  const SUCCESS_LIFETIME_NANOS: nat := 3_200_000_000
  const MAX_DETAIL_CHARS: nat := 320

  type Uuid = nat
  type Runtime = nat

  datatype Preview = Preview(width: nat, height: nat, rgba: seq<Byte>)

  datatype EncodedImage = EncodedImage(pngBytes: seq<Byte>, width: nat, height: nat, preview: Preview)

  datatype RequestState =
    | Preparing
    | Queued
    | Uploading
    | AwaitingInsert
    | Success(expiresAt: nat)
    | Stale
    | Error
    | Tombstone

  datatype Request = Request(
    requestId: Uuid,
    sessionId: Uuid,
    bindingId: Uuid,
    capturedInputEpoch: nat,
    runtime: Option<Runtime>,
    pngBytes: Option<seq<Byte>>,
    preview: Option<Preview>,
    sourceWidth: nat,
    sourceHeight: nat,
    remotePath: Option<string>,
    detail: string,
    dismissed: bool,
    state: RequestState,
    bytesTransferred: nat,
    bytesTotal: nat,
    bytesPerSecond: nat)

  // The controller's four fields.
  datatype Paste = Paste(
    inputEpochs: map<Uuid, nat>,
    requests: seq<Request>,
    activeUploadId: Option<Uuid>,
    revision: nat)

  const INITIAL: Paste := Paste(map[], [], None, 0)

  datatype PathAction = PathAction(requestId: Uuid, sessionId: Uuid, bindingId: Uuid, remotePath: string)

  datatype Completion = AutoInsert(action: PathAction) | WentStale | Ignored

  datatype BindingContext = BindingContext(requestId: Uuid, sessionId: Uuid, bindingId: Uuid)

  datatype UploadJob = UploadJob(
    requestId: Uuid,
    sessionId: Uuid,
    bindingId: Uuid,
    runtime: Runtime,
    pngBytes: seq<Byte>,
    width: nat,
    height: nat,
    encodedBytes: nat)

  datatype Projection = Projection(
    requestId: Uuid,
    status: string,
    preview: Option<Preview>,
    sourceWidth: nat,
    sourceHeight: nat,
    detail: string,
    pasteEnabled: bool,
    copyEnabled: bool,
    collapsed: bool,
    bytesTransferred: nat,
    bytesTotal: nat,
    bytesPerSecond: nat)

  // ---------------------------------------------------------------- helpers

  function FindFrom(rs: seq<Request>, id: Uuid, from: nat): (found: Option<nat>)
    requires from <= |rs|
    ensures found.Some? ==> from <= found.value < |rs| && rs[found.value].requestId == id
    ensures found.Some? ==> forall j :: from <= j < found.value ==> rs[j].requestId != id
    ensures found.None? ==> forall j :: from <= j < |rs| ==> rs[j].requestId != id
    decreases |rs| - from
  {
    if from == |rs| then None
    else if rs[from].requestId == id then Some(from)
    else FindFrom(rs, id, from + 1)
  }

  function Find(c: Paste, id: Uuid): (found: Option<nat>)
    ensures found.Some? ==> found.value < |c.requests| && c.requests[found.value].requestId == id
    ensures found.None? ==> forall r :: r in c.requests ==> r.requestId != id
  {
    FindFrom(c.requests, id, 0)
  }

  predicate IsRetained(r: Request) {
    r.state != Tombstone
  }

  function RetainedCount(rs: seq<Request>): nat {
    |Filter(rs, IsRetained)|
  }

  function EpochOf(epochs: map<Uuid, nat>, sessionId: Uuid): nat {
    if sessionId in epochs then epochs[sessionId] else 0
  }

  function Bump(c: Paste): Paste {
    c.(revision := (c.revision + 1) % U64_LIMIT)
  }

  function Replace(c: Paste, i: nat, r: Request): Paste
    requires i < |c.requests|
  {
    c.(requests := c.requests[i := r])
  }

  function RemoveAt(c: Paste, i: nat): Paste
    requires i < |c.requests|
  {
    c.(requests := c.requests[..i] + c.requests[i + 1..])
  }

  function BoundedDetail(detail: string): (r: string)
    ensures |r| == Min(|detail|, 320) && r <= detail
  {
    if |detail| <= MAX_DETAIL_CHARS then detail else detail[..MAX_DETAIL_CHARS]
  }

  function ToError(r: Request, error: string): Request {
    r.(runtime := None, pngBytes := None, preview := None, remotePath := None,
       detail := BoundedDetail(error), dismissed := false, state := Error)
  }

  function ToTombstone(r: Request): Request {
    r.(runtime := None, pngBytes := None, preview := None, remotePath := None,
       detail := "", dismissed := true, state := Tombstone)
  }

  function AverageBytesPerSecond(bytes: nat, elapsedNanos: nat): nat {
    if bytes == 0 || elapsedNanos == 0 then 0
    else Min(bytes * 1_000_000_000 / elapsedNanos, U64_LIMIT - 1)
  }

  // ---------------------------------------------------------------- operations

  function NewRequest(c: Paste, sessionId: Uuid, bindingId: Uuid, runtime: Runtime, id: Uuid): Request {
    Request(id, sessionId, bindingId, EpochOf(c.inputEpochs, sessionId), Some(runtime), None, None, 0, 0,
            None, "Preparing image", false, Preparing, 0, 0, 0)
  }

  function Register(c: Paste, sessionId: Uuid, bindingId: Uuid, runtime: Runtime, id: Uuid)
    : (Paste, Option<Uuid>)
  {
    if RetainedCount(c.requests) >= QUEUE_CAPACITY then (c, None)
    else
      (Bump(c.(inputEpochs := c.inputEpochs[sessionId := EpochOf(c.inputEpochs, sessionId)],
               requests := c.requests + [NewRequest(c, sessionId, bindingId, runtime, id)])),
       Some(id))
  }

  function NoteTerminalInput(c: Paste, sessionId: Uuid): (Paste, nat) {
    var epoch := (EpochOf(c.inputEpochs, sessionId) + 1) % U64_LIMIT;
    (c.(inputEpochs := c.inputEpochs[sessionId := epoch]), epoch)
  }

  function Prepared(r: Request, encoded: EncodedImage): Request {
    r.(bytesTotal := |encoded.pngBytes|,
       pngBytes := Some(encoded.pngBytes),
       sourceWidth := encoded.width,
       sourceHeight := encoded.height,
       preview := if r.dismissed then r.preview else Some(encoded.preview),
       detail := "Waiting to upload",
       state := Queued)
  }

  function MarkPrepared(c: Paste, id: Uuid, encoded: EncodedImage): (Paste, bool) {
    var found := Find(c, id);
    if found.None? || c.requests[found.value].state != Preparing then (c, false)
    else (Bump(Replace(c, found.value, Prepared(c.requests[found.value], encoded))), true)
  }

  function MarkPreparationFailed(c: Paste, id: Uuid, error: string): (Paste, bool) {
    var found := Find(c, id);
    if found.None? || c.requests[found.value].state != Preparing then (c, false)
    else (Bump(Replace(c, found.value, ToError(c.requests[found.value], error))), true)
  }

  // States the scan for the next upload walks past.
  predicate SkippedByScan(s: RequestState) {
    s.Success? || s.Stale? || s.Error? || s.Tombstone?
  }

  function NextQueued(rs: seq<Request>, from: nat): (found: Option<nat>)
    requires from <= |rs|
    ensures found.Some? ==> from <= found.value < |rs| && rs[found.value].state == Queued
    ensures found.Some? ==> forall j :: from <= j < found.value ==> SkippedByScan(rs[j].state)
    ensures found.None? ==>
              forall q :: from <= q < |rs| && rs[q].state == Queued ==>
                exists b :: from <= b < q && !SkippedByScan(rs[b].state) && rs[b].state != Queued
    decreases |rs| - from
  {
    if from == |rs| then None
    else if SkippedByScan(rs[from].state) then NextQueued(rs, from + 1)
    else if rs[from].state == Queued then Some(from)
    else None
  }

  function JobFor(r: Request, runtime: Runtime, pngBytes: seq<Byte>): UploadJob {
    UploadJob(r.requestId, r.sessionId, r.bindingId, runtime, pngBytes, r.sourceWidth, r.sourceHeight, |pngBytes|)
  }

  function TakeNextUpload(c: Paste): (Paste, Option<UploadJob>) {
    if c.activeUploadId.Some? then (c, None)
    else
      var found := NextQueued(c.requests, 0);
      if found.None? then (c, None)
      else
        var r := c.requests[found.value];
        if r.runtime.None? then
          (Bump(Replace(c, found.value, ToError(r, "Clipboard image upload runtime is unavailable"))), None)
        else if r.pngBytes.None? then
          (Bump(Replace(c, found.value, ToError(r, "Prepared clipboard image data is unavailable"))), None)
        else
          var started := r.(runtime := None, pngBytes := None, state := Uploading, detail := "Uploading image");
          (Bump(Replace(c, found.value, started).(activeUploadId := Some(r.requestId))),
           Some(JobFor(r, r.runtime.value, r.pngBytes.value)))
  }

  function MarkUploadProgress(c: Paste, id: Uuid, transferred: nat, total: nat, elapsedNanos: nat): (Paste, bool) {
    var found := Find(c, id);
    if c.activeUploadId != Some(id) || found.None? then (c, false)
    else
      var r := c.requests[found.value];
      var clamped := Min(transferred, total);
      var rate := AverageBytesPerSecond(clamped, elapsedNanos);
      if r.state != Uploading || r.bytesTotal != total || clamped < r.bytesTransferred then (c, false)
      else if r.bytesTransferred == clamped && r.bytesPerSecond == rate then (c, false)
      else (Bump(Replace(c, found.value, r.(bytesTransferred := clamped, bytesPerSecond := rate))), true)
  }

  const STALE_DETAIL := "Terminal input changed; choose where to use the uploaded path"

  function MarkUploadSucceeded(c: Paste, id: Uuid, path: string): (Paste, Completion) {
    if c.activeUploadId != Some(id) then (c, Ignored)
    else
      var freed := c.(activeUploadId := None);
      var found := Find(c, id);
      if found.None? then (Bump(freed), Ignored)
      else
        var r := c.requests[found.value];
        if r.state == Tombstone then (Bump(RemoveAt(freed, found.value)), Ignored)
        else if r.state != Uploading then (Bump(freed), Ignored)
        else if EpochOf(c.inputEpochs, r.sessionId) == r.capturedInputEpoch then
          (Bump(Replace(freed, found.value,
                        r.(remotePath := Some(path), state := AwaitingInsert, detail := "Upload complete"))),
           AutoInsert(PathAction(id, r.sessionId, r.bindingId, path)))
        else
          (Bump(Replace(freed, found.value,
                        r.(remotePath := Some(path), state := Stale, dismissed := false, detail := STALE_DETAIL))),
           WentStale)
  }

  function MarkUploadFailed(c: Paste, id: Uuid, error: string): (Paste, bool) {
    if c.activeUploadId != Some(id) then (c, false)
    else
      var freed := c.(activeUploadId := None);
      var found := Find(c, id);
      if found.None? then (Bump(freed), false)
      else
        var r := c.requests[found.value];
        if r.state == Tombstone then (Bump(RemoveAt(freed, found.value)), false)
        else if r.state != Uploading then (Bump(freed), false)
        else (Bump(Replace(freed, found.value, ToError(r, error))), true)
  }

  function MarkInserted(c: Paste, id: Uuid, now: nat): (Paste, bool) {
    var found := Find(c, id);
    if found.None? || (c.requests[found.value].state != AwaitingInsert && c.requests[found.value].state != Stale)
    then (c, false)
    else
      (Bump(Replace(c, found.value,
                    c.requests[found.value].(preview := None, remotePath := None, detail := "Path pasted",
                                             state := Success(now + SUCCESS_LIFETIME_NANOS)))),
       true)
  }

  function Released(c: Paste, id: Uuid): Paste {
    if c.activeUploadId == Some(id) then c.(activeUploadId := None) else c
  }

  function MarkConnectionInvalid(c: Paste, id: Uuid, error: string): (Paste, bool) {
    var found := Find(c, id);
    if found.None? then (c, false)
    else
      var r := c.requests[found.value];
      if r.state == Tombstone then (Bump(RemoveAt(Released(c, id), found.value)), true)
      else if r.state.Success? || r.state == Error then (c, false)
      else (Bump(Replace(Released(c, id), found.value, ToError(r, error))), true)
  }

  function MarkCopyFailed(c: Paste, id: Uuid, error: string): (Paste, bool) {
    var found := Find(c, id);
    if found.None? || c.requests[found.value].state != Stale || c.requests[found.value].remotePath.None?
    then (c, false)
    else
      (Bump(Replace(c, found.value,
                    c.requests[found.value].(detail := BoundedDetail("Copy failed: " + error)))),
       true)
  }

  function Dismiss(c: Paste, id: Uuid): (Paste, bool) {
    var found := Find(c, id);
    if found.None? then (c, false)
    else
      var r := c.requests[found.value];
      match r.state
      case Tombstone => (c, false)
      case Success(_) => (Bump(RemoveAt(c, found.value)), true)
      case Stale => (Bump(RemoveAt(c, found.value)), true)
      case Error => (Bump(RemoveAt(c, found.value)), true)
      case _ => (Bump(Replace(c, found.value, r.(dismissed := true, preview := None))), true)
  }

  predicate OutlivesFeedback(r: Request, now: nat) {
    !(r.state.Success? && r.state.expiresAt <= now)
  }

  function ExpireSuccess(c: Paste, now: nat): (Paste, bool) {
    var kept := Filter(c.requests, (r: Request) => OutlivesFeedback(r, now));
    if |kept| == |c.requests| then (c.(requests := kept), false)
    else (Bump(c.(requests := kept)), true)
  }

  predicate SurvivesRemoval(r: Request, sessionId: Uuid, active: Option<Uuid>) {
    r.sessionId != sessionId || (active == Some(r.requestId) && r.state == Uploading)
  }

  function AfterRemoval(r: Request, sessionId: Uuid): Request {
    if r.sessionId == sessionId then ToTombstone(r) else r
  }

  function WithoutSession(rs: seq<Request>, sessionId: Uuid, active: Option<Uuid>): seq<Request> {
    var kept := Filter(rs, (r: Request) => SurvivesRemoval(r, sessionId, active));
    seq(|kept|, k requires 0 <= k < |kept| => AfterRemoval(kept[k], sessionId))
  }

  function RemoveSession(c: Paste, sessionId: Uuid): (Paste, bool) {
    var touched := sessionId in c.inputEpochs || exists r :: r in c.requests && r.sessionId == sessionId;
    var next := c.(inputEpochs := c.inputEpochs - {sessionId},
                   requests := WithoutSession(c.requests, sessionId, c.activeUploadId));
    if touched then (Bump(next), true) else (next, false)
  }

  // ---------------------------------------------------------------- queries

  predicate IsProjected(r: Request, activeSessionId: Uuid) {
    r.sessionId == activeSessionId && !r.dismissed && r.state != Tombstone
  }

  function StatusOf(s: RequestState): string {
    match s
    case Preparing => "preparing"
    case Queued => "queued"
    case Uploading => "uploading"
    case AwaitingInsert => "uploading"
    case Success(_) => "success"
    case Stale => "stale"
    case Error => "error"
    case Tombstone => ""
  }

  function Project(r: Request): Projection {
    Projection(r.requestId, StatusOf(r.state), r.preview, r.sourceWidth, r.sourceHeight, r.detail,
               r.state == Stale, r.state == Stale, r.state.Success?,
               r.bytesTransferred, r.bytesTotal, r.bytesPerSecond)
  }

  function Projections(c: Paste, activeSessionId: Uuid): seq<Projection> {
    var shown := Filter(c.requests, (r: Request) => IsProjected(r, activeSessionId));
    seq(|shown|, k requires 0 <= k < |shown| => Project(shown[k]))
  }

  function ActiveUploadBindingContext(c: Paste, id: Uuid): Option<BindingContext> {
    var found := Find(c, id);
    if found.Some? && c.activeUploadId == Some(id) && c.requests[found.value].state == Uploading
    then Some(BindingContext(id, c.requests[found.value].sessionId, c.requests[found.value].bindingId))
    else None
  }

  function StalePasteAction(c: Paste, id: Uuid, activeSessionId: Uuid): Option<PathAction> {
    var found := Find(c, id);
    if found.None? then None
    else
      var r := c.requests[found.value];
      if r.state != Stale || r.sessionId != activeSessionId || r.remotePath.None? then None
      else Some(PathAction(id, r.sessionId, r.bindingId, r.remotePath.value))
  }
}
