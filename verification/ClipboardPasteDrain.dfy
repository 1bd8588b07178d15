// The loop that feeds background results into the paste controller
// (src/app/bootstrap/workspace_terminal.rs), and what it means for the one upload slot.
module ClipboardPasteDrain {
  import opened Common
  import opened ClipboardPaste
  import opened ClipboardPasteInvariants
  import opened ClipboardPasteController

  datatype Message =
    | PreparedOk(requestId: Uuid, encoded: EncodedImage)
    | PreparedErr(requestId: Uuid, error: string)
    | UploadedOk(requestId: Uuid, path: string)
    | UploadedErr(requestId: Uuid, error: string)
    | ProgressReport(requestId: Uuid, transferred: nat, total: nat, elapsedNanos: nat)

  datatype PasteResult = Sent | BindingLost | SendError(error: string)

  // The session manager's answers and the clock while one message is handled.
  datatype Env = Env(isCurrent: BindingContext -> bool, paste: PathAction -> PasteResult, now: nat)

  datatype Delivery = Delivery(message: Message, env: Env)

  // The manager's answers in the sweep, which asks once for each stale context, and the clock at expiry.
  datatype Closing = Closing(isCurrent: BindingContext -> bool, now: nat)

  const LOST_BEFORE := "the originating terminal connection changed or closed before the upload completed"
  const LOST_AFTER := "the originating terminal connection changed after the image upload completed"

  // ---------------------------------------------------------------- specification

  function AfterAutoInsert(c: Paste, action: PathAction, env: Env): Paste {
    var noted := NoteTerminalInput(c, action.sessionId).0;
    match env.paste(action)
    case Sent => MarkInserted(noted, action.requestId, env.now).0
    case BindingLost => MarkConnectionInvalid(noted, action.requestId, LOST_BEFORE).0
    case SendError(error) => MarkConnectionInvalid(noted, action.requestId, error).0
  }

  function OnUploaded(c: Paste, id: Uuid, path: string, env: Env): Paste {
    var context := ActiveUploadBindingContext(c, id);
    if context.None? then c
    else if !env.isCurrent(context.value) then MarkConnectionInvalid(c, id, LOST_BEFORE).0
    else
      var (next, completion) := MarkUploadSucceeded(c, id, path);
      if completion.AutoInsert? then AfterAutoInsert(next, completion.action, env) else next
  }

  function OnMessage(c: Paste, m: Message, env: Env): Paste {
    match m
    case PreparedOk(id, encoded) => MarkPrepared(c, id, encoded).0
    case PreparedErr(id, error) => MarkPreparationFailed(c, id, error).0
    case UploadedOk(id, path) => OnUploaded(c, id, path, env)
    case UploadedErr(id, error) => MarkUploadFailed(c, id, error).0
    case ProgressReport(id, transferred, total, nanos) => MarkUploadProgress(c, id, transferred, total, nanos).0
  }

  function OnMessages(c: Paste, ms: seq<Delivery>): Paste {
    if ms == [] then c
    else OnMessage(OnMessages(c, ms[..|ms| - 1]), ms[|ms| - 1].message, ms[|ms| - 1].env)
  }

  function ContextOf(r: Request): BindingContext {
    BindingContext(r.requestId, r.sessionId, r.bindingId)
  }

  predicate IsStale(r: Request) {
    r.state == Stale
  }

  function StaleContexts(rs: seq<Request>): seq<BindingContext> {
    var stale := Filter(rs, IsStale);
    seq(|stale|, k requires 0 <= k < |stale| => ContextOf(stale[k]))
  }

  function InvalidateLost(c: Paste, contexts: seq<BindingContext>, closing: Closing): Paste {
    if contexts == [] then c
    else
      var before := InvalidateLost(c, contexts[..|contexts| - 1], closing);
      var context := contexts[|contexts| - 1];
      if closing.isCurrent(context) then before else MarkConnectionInvalid(before, context.requestId, LOST_AFTER).0
  }

  function Drained(c: Paste, ms: seq<Delivery>, closing: Closing): (Paste, Option<UploadJob>) {
    var fed := OnMessages(c, ms);
    var swept := InvalidateLost(fed, StaleContexts(fed.requests), closing);
    TakeNextUpload(ExpireSuccess(swept, closing.now).0)
  }

  // ---------------------------------------------------------------- the loop

  method CollectStaleContexts(controller: ClipboardImagePasteController) returns (contexts: seq<BindingContext>)
    ensures contexts == StaleContexts(controller.requests)
  {
    contexts := [];
    for k := 0 to |controller.requests|
      invariant contexts == StaleContexts(controller.requests[..k])
    {
      var r := controller.requests[k];
      FilterAppend(controller.requests[..k], r, IsStale);
      assert controller.requests[..k + 1] == controller.requests[..k] + [r];
      if r.state == Stale {
        contexts := contexts + [ContextOf(r)];
      }
    }
    assert controller.requests[..|controller.requests|] == controller.requests;
  }

  method HandleUploaded(controller: ClipboardImagePasteController, id: Uuid, path: string, env: Env)
    modifies controller
    ensures controller.Abs() == OnUploaded(old(controller.Abs()), id, path, env)
  {
    var found := controller.RequestIndex(id);
    if !(found.Some? && controller.activeUploadId == Some(id) && controller.requests[found.value].state == Uploading) {
      return;
    }
    var context := ContextOf(controller.requests[found.value]);
    if !env.isCurrent(context) {
      var changed := controller.MarkConnectionInvalid(id, LOST_BEFORE);
      return;
    }
    var completion := controller.MarkUploadSucceeded(id, path);
    if completion.AutoInsert? {
      var epoch := controller.NoteTerminalInput(completion.action.sessionId);
      match env.paste(completion.action) {
        case Sent =>
          var changed := controller.MarkInserted(completion.action.requestId, env.now);
        case BindingLost =>
          var changed := controller.MarkConnectionInvalid(completion.action.requestId, LOST_BEFORE);
        case SendError(error) =>
          var changed := controller.MarkConnectionInvalid(completion.action.requestId, error);
      }
    }
  }

  method Drain(controller: ClipboardImagePasteController, ms: seq<Delivery>, closing: Closing)
    returns (job: Option<UploadJob>)
    modifies controller
    ensures (controller.Abs(), job) == Drained(old(controller.Abs()), ms, closing)
  {
    for k := 0 to |ms|
      invariant controller.Abs() == OnMessages(old(controller.Abs()), ms[..k])
    {
      assert ms[..k + 1][..k] == ms[..k];
      var env := ms[k].env;
      match ms[k].message {
        case PreparedOk(id, encoded) =>
          var changed := controller.MarkPrepared(id, encoded);
        case PreparedErr(id, error) =>
          var changed := controller.MarkPreparationFailed(id, error);
        case UploadedOk(id, path) =>
          HandleUploaded(controller, id, path, env);
        case UploadedErr(id, error) =>
          var changed := controller.MarkUploadFailed(id, error);
        case ProgressReport(id, transferred, total, nanos) =>
          var changed := controller.MarkUploadProgress(id, transferred, total, nanos);
      }
    }
    assert ms[..|ms|] == ms;
    ghost var fed := controller.Abs();
    var contexts := CollectStaleContexts(controller);
    for k := 0 to |contexts|
      invariant controller.Abs() == InvalidateLost(fed, contexts[..k], closing)
    {
      assert contexts[..k + 1][..k] == contexts[..k];
      if !closing.isCurrent(contexts[k]) {
        var changed := controller.MarkConnectionInvalid(contexts[k].requestId, LOST_AFTER);
      }
    }
    assert contexts[..|contexts|] == contexts;
    var expired := controller.ExpireSuccess(closing.now);
    job := controller.TakeNextUpload();
  }

  // ---------------------------------------------------------------- what frees the slot

  // A successful result reported for the active upload frees the slot if and only if the upload's
  // request is still queued as uploading; a tombstone's success leaves the slot taken.
  lemma SuccessFreesSlotIffUploading(c: Paste, id: Uuid, path: string, env: Env)
    requires Inv(c) && c.activeUploadId == Some(id)
    ensures OnUploaded(c, id, path, env).activeUploadId == None <==>
            exists r :: r in c.requests && r.requestId == id && r.state == Uploading
  {
    var found := Find(c, id);
    if found.Some? {
      assert c.requests[found.value] in c.requests;
      forall r | r in c.requests && r.requestId == id ensures r == c.requests[found.value] {
        var k :| 0 <= k < |c.requests| && c.requests[k] == r;
      }
    }
  }

  // A failed result always frees the slot it held.
  lemma FailureFreesSlot(c: Paste, id: Uuid, error: string)
    requires c.activeUploadId == Some(id)
    ensures MarkUploadFailed(c, id, error).0.activeUploadId == None
  {
  }

  // The slot is taken by an upload whose request is a tombstone or gone.
  ghost predicate Orphaned(c: Paste, id: Uuid) {
    c.activeUploadId == Some(id) && forall r :: r in c.requests && r.requestId == id ==> r.state == Tombstone
  }

  lemma Lineage(before: seq<Request>, after: seq<Request>, idx: seq<nat>, added: seq<Request>)
    requires EvolvesVia(before, after, idx, added)
    ensures forall r :: r in after ==> r in added || exists b :: b in before && Succeeds(b, r)
  {
    forall r | r in after ensures r in added || exists b :: b in before && Succeeds(b, r) {
      var k :| 0 <= k < |after| && after[k] == r;
      if k < |idx| {
        assert before[idx[k]] in before && Succeeds(before[idx[k]], r);
      } else {
        assert r == after[|idx|..][k - |idx|];
      }
    }
  }

  lemma OrphanQueueSurvives(c: Paste, e: Event, id: Uuid)
    requires Inv(c) && Fresh(c, e) && Orphaned(c, id)
    ensures forall r :: r in Step(c, e).requests && r.requestId == id ==> r.state == Tombstone
  {
    var idx, added := StepEvolves(c, e);
    TombstonesStay(c, id, Step(c, e).requests, idx, added);
  }

  lemma TombstonesStay(c: Paste, id: Uuid, after: seq<Request>, idx: seq<nat>, added: seq<Request>)
    requires Orphaned(c, id) && EvolvesVia(c.requests, after, idx, added)
    requires forall r :: r in added ==> r.requestId != id
    ensures forall r :: r in after && r.requestId == id ==> r.state == Tombstone
  {
    Lineage(c.requests, after, idx, added);
  }

  lemma OrphanSurvivesEvent(c: Paste, e: Event, id: Uuid, next: Paste)
    requires Inv(c) && Fresh(c, e) && Orphaned(c, id) && !ReleasesSlot(e, id)
    requires next == Step(c, e)
    ensures Inv(next) && Orphaned(next, id)
  {
    StepKeepsInv(c, e);
    SlotStep(c, e, id);
    OrphanQueueSurvives(c, e, id);
  }

  // A successful result for an orphan is dropped: nothing changes, the slot stays taken.
  lemma OrphanIgnoresSuccess(c: Paste, other: Uuid, path: string, env: Env, id: Uuid)
    requires Orphaned(c, id)
    ensures OnUploaded(c, other, path, env) == c
  {
    var found := Find(c, other);
    if found.Some? {
      assert c.requests[found.value] in c.requests;
    }
  }

  predicate Fails(m: Message, id: Uuid) {
    m.UploadedErr? && m.requestId == id
  }

  lemma OrphanSurvivesMessage(c: Paste, m: Message, env: Env, id: Uuid)
    requires Inv(c) && Orphaned(c, id) && !Fails(m, id)
    ensures Inv(OnMessage(c, m, env)) && Orphaned(OnMessage(c, m, env), id)
  {
    match m
    case PreparedOk(r, encoded) => OrphanSurvivesEvent(c, Prepared(r, encoded), id, OnMessage(c, m, env));
    case PreparedErr(r, error) => OrphanSurvivesEvent(c, PreparationFailed(r, error), id, OnMessage(c, m, env));
    case UploadedOk(r, path) => OrphanIgnoresSuccess(c, r, path, env, id);
    case UploadedErr(r, error) => OrphanSurvivesEvent(c, UploadFailed(r, error), id, OnMessage(c, m, env));
    case ProgressReport(r, transferred, total, nanos) =>
      OrphanSurvivesEvent(c, Progress(r, transferred, total, nanos), id, OnMessage(c, m, env));
  }

  lemma {:induction false} OrphanSurvivesMessages(c: Paste, ms: seq<Delivery>, id: Uuid)
    requires Inv(c) && Orphaned(c, id)
    requires forall d :: d in ms ==> !Fails(d.message, id)
    ensures Inv(OnMessages(c, ms)) && Orphaned(OnMessages(c, ms), id)
  {
    if ms != [] {
      OrphanSurvivesMessages(c, ms[..|ms| - 1], id);
      OrphanSurvivesMessage(OnMessages(c, ms[..|ms| - 1]), ms[|ms| - 1].message, ms[|ms| - 1].env, id);
    }
  }

  lemma {:induction false} OrphanSurvivesSweep(c: Paste, contexts: seq<BindingContext>, closing: Closing, id: Uuid)
    requires Inv(c) && Orphaned(c, id)
    requires forall k :: 0 <= k < |contexts| ==> contexts[k].requestId != id
    ensures Inv(InvalidateLost(c, contexts, closing)) && Orphaned(InvalidateLost(c, contexts, closing), id)
  {
    if contexts != [] {
      var last := |contexts| - 1;
      OrphanSurvivesSweep(c, contexts[..last], closing, id);
      var before, lost := InvalidateLost(c, contexts[..last], closing), contexts[last].requestId;
      OrphanSurvivesEvent(before, ConnectionInvalid(lost, LOST_AFTER), id, MarkConnectionInvalid(before, lost, LOST_AFTER).0);
    }
  }

  lemma StaleContextsAreStale(rs: seq<Request>, k: nat) returns (r: Request)
    requires k < |StaleContexts(rs)|
    ensures r in rs && r.state == Stale && StaleContexts(rs)[k] == ContextOf(r)
  {
    var idx := FilterEmbeds(rs, IsStale);
    r := rs[idx[k]];
    assert IsStale(r);
  }

  lemma OrphanSurvivesDrain(c: Paste, ms: seq<Delivery>, closing: Closing, id: Uuid)
    requires Inv(c) && Orphaned(c, id)
    requires forall d :: d in ms ==> !Fails(d.message, id)
    ensures Inv(Drained(c, ms, closing).0) && Orphaned(Drained(c, ms, closing).0, id)
    ensures Drained(c, ms, closing).1 == None
  {
    OrphanSurvivesMessages(c, ms, id);
    var fed := OnMessages(c, ms);
    var contexts := StaleContexts(fed.requests);
    forall k | 0 <= k < |contexts| ensures contexts[k].requestId != id {
      var r := StaleContextsAreStale(fed.requests, k);
    }
    OrphanSurvivesSweep(fed, contexts, closing, id);
    OrphanSurvivesEvent(InvalidateLost(fed, contexts, closing), Expire(closing.now), id,
                        ExpireSuccess(InvalidateLost(fed, contexts, closing), closing.now).0);
  }

  // The application: drains of background results, and user or session events between them.
  datatype AppStep = DrainStep(ms: seq<Delivery>, closing: Closing) | UserStep(event: Event)

  function AppNext(c: Paste, step: AppStep): (Paste, Option<UploadJob>) {
    match step
    case DrainStep(ms, closing) => Drained(c, ms, closing)
    case UserStep(e) => (Step(c, e), None)
  }

  // What may happen while nobody reports the orphan's upload as failed. TakeNext is the drain's own.
  ghost predicate Quiet(c: Paste, step: AppStep, id: Uuid) {
    match step
    case DrainStep(ms, closing) => forall d :: d in ms ==> !Fails(d.message, id)
    case UserStep(e) => !ReleasesSlot(e, id) && !e.TakeNext? && Fresh(c, e)
  }

  ghost predicate IsAppRun(steps: seq<AppStep>, ss: seq<Paste>) {
    && |ss| == |steps| + 1
    && forall n: nat {:trigger Moment(n)} :: n < |steps| && Moment(n) ==> ss[n + 1] == AppNext(ss[n], steps[n]).0
  }

  lemma OrphanSurvivesStep(c: Paste, step: AppStep, id: Uuid)
    requires Inv(c) && Orphaned(c, id) && Quiet(c, step, id)
    ensures Inv(AppNext(c, step).0) && Orphaned(AppNext(c, step).0, id)
    ensures AppNext(c, step).1 == None
  {
    match step
    case DrainStep(ms, closing) => OrphanSurvivesDrain(c, ms, closing, id);
    case UserStep(e) => OrphanSurvivesEvent(c, e, id, AppNext(c, step).0);
  }

  lemma OrphanSurvivesRunStep(steps: seq<AppStep>, ss: seq<Paste>, id: Uuid, n: nat)
    requires IsAppRun(steps, ss) && n < |steps|
    requires Inv(ss[n]) && Orphaned(ss[n], id) && Quiet(ss[n], steps[n], id)
    ensures Inv(ss[n + 1]) && Orphaned(ss[n + 1], id)
  {
    assert Moment(n);
    OrphanSurvivesStep(ss[n], steps[n], id);
  }

  lemma {:induction false} OrphanSurvivesRun(steps: seq<AppStep>, ss: seq<Paste>, id: Uuid, from: nat, n: nat)
    requires IsAppRun(steps, ss) && from <= n <= |steps| && Inv(ss[from]) && Orphaned(ss[from], id)
    requires forall k :: from <= k < n ==> Quiet(ss[k], steps[k], id)
    ensures Inv(ss[n]) && Orphaned(ss[n], id)
    decreases n
  {
    if from < n {
      OrphanSurvivesRun(steps, ss, id, from, n - 1);
      OrphanSurvivesRunStep(steps, ss, id, n - 1);
    }
  }

  // Once the active upload is orphaned, no upload ever starts again unless that very upload is
  // reported as failed: each upload task reports once, so a success wedges the queue for good.
  lemma OrphanBlocksEveryUpload(steps: seq<AppStep>, ss: seq<Paste>, id: Uuid, from: nat, n: nat)
    requires IsAppRun(steps, ss) && from <= n < |steps| && Inv(ss[from]) && Orphaned(ss[from], id)
    requires forall k :: from <= k <= n ==> Quiet(ss[k], steps[k], id)
    ensures AppNext(ss[n], steps[n]).1 == None
  {
    OrphanSurvivesRun(steps, ss, id, from, n);
    OrphanSurvivesStep(ss[n], steps[n], id);
  }

  lemma RemovalTombstones(c: Paste, s: Uuid)
    requires Inv(c)
    ensures forall r :: r in RemoveSession(c, s).0.requests && r.sessionId == s ==>
                          r.state == Tombstone && exists b :: b in c.requests && b.state == Uploading
                                                              && b.requestId == r.requestId && b.sessionId == s
    ensures forall r :: r in RemoveSession(c, s).0.requests && r.sessionId != s ==> r in c.requests
  {
    var next := RemoveSession(c, s).0;
    var idx := RemovalEvolves(c, s);
    forall r | r in next.requests
      ensures r.sessionId != s ==> r in c.requests
      ensures r.sessionId == s ==> r.state == Tombstone && exists b :: b in c.requests && b.state == Uploading
                                                              && b.requestId == r.requestId && b.sessionId == s
    {
      var k :| 0 <= k < |next.requests| && next.requests[k] == r;
      assert c.requests[idx[k]] in c.requests;
    }
  }

  lemma SameIdSameRequest(c: Paste, r: Request, b: Request)
    requires Inv(c) && r in c.requests && b in c.requests && r.requestId == b.requestId
    ensures r == b
  {
    var i :| 0 <= i < |c.requests| && c.requests[i] == r;
    var j :| 0 <= j < |c.requests| && c.requests[j] == b;
  }

  // Removing the active upload's session is all it takes to orphan the upload.
  lemma RemovalOrphansActiveUpload(c: Paste, r: Request)
    requires Inv(c) && r in c.requests && r.state == Uploading
    ensures Orphaned(RemoveSession(c, r.sessionId).0, r.requestId)
  {
    var next := RemoveSession(c, r.sessionId).0;
    RemovalTombstones(c, r.sessionId);
    forall x | x in next.requests && x.requestId == r.requestId ensures x.state == Tombstone {
      if x.sessionId != r.sessionId {
        SameIdSameRequest(c, r, x);
      }
    }
  }

  // A second removal drops the tombstone and leaves the slot taken: an active id may have no request.
  lemma SecondRemovalDropsTombstone(c: Paste, s: Uuid)
    requires Inv(c)
    ensures var twice := RemoveSession(RemoveSession(c, s).0, s).0;
            && twice.activeUploadId == c.activeUploadId
            && forall r :: r in twice.requests ==> r.sessionId != s
  {
    RemovalKeepsInv(c, s);
    RemovalTombstones(c, s);
    var once := RemoveSession(c, s).0;
    RemovalTombstones(once, s);
  }
}
