// What keeps uploads going between the steps of the application, and a run that stops them for good.
module ClipboardPasteProgress {
  import opened Common
  import opened Folding
  import opened ClipboardPaste
  import opened ClipboardPasteInvariants
  import opened ClipboardPasteRuns
  import opened ClipboardPasteDrain
  import opened ClipboardPasteApp

  // ---------------------------------------------------------------- nothing awaits insertion

  predicate Awaits(r: Request) {
    r.state == AwaitingInsert
  }

  ghost predicate Settled(c: Paste) {
    forall r :: r in c.requests ==> !Awaits(r)
  }

  // At most the request with this id awaits insertion.
  ghost predicate SettledBut(c: Paste, id: Uuid) {
    forall r :: r in c.requests && r.requestId != id ==> !Awaits(r)
  }

  lemma ReplacedSettles(c: Paste, i: nat, r: Request, next: Paste)
    requires UniqueIds(c.requests) && i < |c.requests| && SettledBut(c, c.requests[i].requestId) && !Awaits(r)
    requires next.requests == c.requests[i := r]
    ensures Settled(next)
  {
    forall x | x in next.requests ensures !Awaits(x) {
      var k :| 0 <= k < |next.requests| && next.requests[k] == x;
      assert k != i ==> x == c.requests[k] && x in c.requests;
    }
  }

  lemma RemovedSettles(c: Paste, i: nat, next: Paste)
    requires UniqueIds(c.requests) && i < |c.requests| && SettledBut(c, c.requests[i].requestId)
    requires next.requests == c.requests[..i] + c.requests[i + 1..]
    ensures Settled(next)
  {
    var idx := Skipping(|c.requests|, i);
    forall x | x in next.requests ensures !Awaits(x) {
      var k :| 0 <= k < |next.requests| && next.requests[k] == x;
      assert x == c.requests[idx[k]] && x in c.requests;
    }
  }

  // What is reported for the request that may be awaiting insertion moves it on.
  lemma InsertedSettles(c: Paste, id: Uuid, now: nat)
    requires Inv(c) && SettledBut(c, id)
    ensures Settled(MarkInserted(c, id, now).0)
  {
    var found := Find(c, id);
    if found.Some? {
      FoundIsOnly(c, id, found.value);
      var next := MarkInserted(c, id, now).0;
      if next != c {
        ReplacedSettles(c, found.value, next.requests[found.value], next);
      }
    }
  }

  lemma FoundIsOnly(c: Paste, id: Uuid, i: nat)
    requires Inv(c) && Find(c, id) == Some(i)
    ensures c.requests[i] in c.requests && WellFormed(c.requests[i])
    ensures forall r :: r in c.requests && r.requestId == id ==> r == c.requests[i]
  {
    forall r | r in c.requests && r.requestId == id ensures r == c.requests[i] {
      SameIdSameRequest(c, r, c.requests[i]);
    }
  }

  lemma InvalidSettles(c: Paste, id: Uuid, error: string)
    requires Inv(c) && SettledBut(c, id)
    ensures Settled(MarkConnectionInvalid(c, id, error).0)
  {
    var found := Find(c, id);
    if found.Some? {
      FoundIsOnly(c, id, found.value);
      var next := MarkConnectionInvalid(c, id, error).0;
      if c.requests[found.value].state == Tombstone {
        RemovedSettles(c, found.value, next);
      } else if next != c {
        ReplacedSettles(c, found.value, ToError(c.requests[found.value], error), next);
      }
    }
  }

  lemma SucceededSettlesOthers(c: Paste, id: Uuid, path: string)
    requires Inv(c) && Settled(c)
    ensures SettledBut(MarkUploadSucceeded(c, id, path).0, id)
    ensures !MarkUploadSucceeded(c, id, path).1.AutoInsert? ==> Settled(MarkUploadSucceeded(c, id, path).0)
  {
    var next := MarkUploadSucceeded(c, id, path).0;
    var found := Find(c, id);
    if found.Some? && next.requests != c.requests {
      if c.requests[found.value].state == Tombstone {
        RemovedSettles(c, found.value, next);
      } else if MarkUploadSucceeded(c, id, path).1 == WentStale {
        ReplacedSettles(c, found.value, next.requests[found.value], next);
      } else {
        forall r | r in next.requests && r.requestId != id ensures !Awaits(r) {
          var k :| 0 <= k < |next.requests| && next.requests[k] == r;
          assert k != found.value ==> r == c.requests[k] && r in c.requests;
        }
      }
    }
  }

  // The request at i is not made to await insertion.
  predicate Spares(before: seq<Request>, after: seq<Request>, i: nat)
    requires i < |before|
  {
    |after| == |before| && !Awaits(before[i]) ==> !Awaits(after[i])
  }

  lemma TakeNextSpares(c: Paste, i: nat)
    requires i < |c.requests| && NextQueued(c.requests, 0) == Some(i)
    ensures Spares(c.requests, TakeNextUpload(c).0.requests, i)
  {
  }

  lemma FailureSpares(c: Paste, id: Uuid, error: string, i: nat)
    requires i < |c.requests| && Find(c, id) == Some(i)
    ensures Spares(c.requests, MarkUploadFailed(c, id, error).0.requests, i)
    ensures Spares(c.requests, MarkConnectionInvalid(c, id, error).0.requests, i)
    ensures Spares(c.requests, MarkPreparationFailed(c, id, error).0.requests, i)
    ensures Spares(c.requests, MarkCopyFailed(c, id, error).0.requests, i)
  {
  }

  lemma DismissSpares(c: Paste, id: Uuid, i: nat)
    requires i < |c.requests| && Find(c, id) == Some(i)
    ensures Spares(c.requests, Dismiss(c, id).0.requests, i)
  {
  }

  lemma TargetDoesNotAwait(c: Paste, e: Event, i: nat, next: Paste)
    requires IsPointEvent(e) && !e.UploadSucceeded? && Target(c, e) == Some(i) && next == Step(c, e)
    ensures Spares(c.requests, next.requests, i)
  {
    match e
    case TakeNext => TakeNextSpares(c, i);
    case DismissItem(id) => DismissSpares(c, id, i);
    case UploadFailed(id, error) => FailureSpares(c, id, error, i);
    case ConnectionInvalid(id, error) => FailureSpares(c, id, error, i);
    case PreparationFailed(id, error) => FailureSpares(c, id, error, i);
    case CopyFailed(id, error) => FailureSpares(c, id, error, i);
    case Prepared(_, _) =>
    case Progress(_, _, _, _) =>
    case Inserted(_, _) =>
  }

  // A point event other than a success makes no request await insertion.
  lemma PointKeepsSettled(c: Paste, e: Event, next: Paste)
    requires Inv(c) && Settled(c) && IsPointEvent(e) && !e.UploadSucceeded? && next == Step(c, e)
    ensures Settled(next)
  {
    PointEventIsPointStep(c, e);
    if next.requests != c.requests {
      var i := Target(c, e).value;
      assert c.requests[i] in c.requests;
      if Advances(c, next, i) {
        TargetDoesNotAwait(c, e, i, next);
        ReplacedSettles(c, i, next.requests[i], next);
      } else {
        RemovedSettles(c, i, next);
      }
    }
  }

  lemma EventKeepsSettled(c: Paste, e: Event, next: Paste)
    requires Inv(c) && Settled(c) && !e.UploadSucceeded? && next == Step(c, e)
    ensures Settled(next)
  {
    if IsPointEvent(e) {
      PointKeepsSettled(c, e, next);
    } else if e.Expire? {
      var idx := ExpireEvolves(c, e.now);
      SelectedSettles(c.requests, next.requests, idx);
    } else if e.SessionRemoved? {
      var idx := RemovalEvolves(c, e.sessionId);
      SelectedSettles(c.requests, next.requests, idx);
    }
  }

  lemma SelectedSettles(before: seq<Request>, after: seq<Request>, idx: seq<nat>)
    requires |idx| == |after| && Embeds(idx, |before|)
    requires forall k :: 0 <= k < |idx| ==> Awaits(after[k]) ==> Awaits(before[idx[k]])
    requires forall r :: r in before ==> !Awaits(r)
    ensures forall r :: r in after ==> !Awaits(r)
  {
    forall r | r in after ensures !Awaits(r) {
      var k :| 0 <= k < |after| && after[k] == r;
      assert before[idx[k]] in before;
    }
  }

  ghost predicate Calm(c: Paste) {
    Inv(c) && Settled(c)
  }

  lemma EventKeepsCalm(c: Paste, e: Event, next: Paste)
    requires Calm(c) && Fresh(c, e) && !e.UploadSucceeded? && next == Step(c, e)
    ensures Calm(next)
  {
    StepKeepsInv(c, e);
    EventKeepsSettled(c, e, next);
  }

  // ---------------------------------------------------------------- every step leaves nothing awaiting

  lemma InsertedIsCalm(c: Paste, id: Uuid, now: nat, next: Paste)
    requires Inv(c) && SettledBut(c, id) && next == MarkInserted(c, id, now).0
    ensures Calm(next)
  {
    InsertedIsPoint(c, id, now);
    PointKeepsInv(c, Inserted(id, now), next);
    InsertedSettles(c, id, now);
  }

  lemma InvalidIsCalm(c: Paste, id: Uuid, error: string, next: Paste)
    requires Inv(c) && SettledBut(c, id) && next == MarkConnectionInvalid(c, id, error).0
    ensures Calm(next)
  {
    ConnectionInvalidIsPoint(c, id, error);
    PointKeepsInv(c, ConnectionInvalid(id, error), next);
    InvalidSettles(c, id, error);
  }

  lemma NotedKeeps(c: Paste, s: Uuid, id: Uuid, noted: Paste)
    requires Inv(c) && SettledBut(c, id) && noted == NoteTerminalInput(c, s).0
    ensures Inv(noted) && SettledBut(noted, id)
  {
    StepKeepsInv(c, NoteInput(s));
  }

  lemma AutoInsertSettles(c: Paste, action: PathAction, env: Env, next: Paste)
    requires Inv(c) && SettledBut(c, action.requestId) && next == AfterAutoInsert(c, action, env)
    ensures Calm(next)
  {
    var noted := NoteTerminalInput(c, action.sessionId).0;
    NotedKeeps(c, action.sessionId, action.requestId, noted);
    match env.paste(action)
    case Sent => InsertedIsCalm(noted, action.requestId, env.now, next);
    case BindingLost => InvalidIsCalm(noted, action.requestId, LOST_BEFORE, next);
    case SendError(error) => InvalidIsCalm(noted, action.requestId, error, next);
  }

  lemma CompletionNamesId(c: Paste, id: Uuid, path: string)
    requires MarkUploadSucceeded(c, id, path).1.AutoInsert?
    ensures MarkUploadSucceeded(c, id, path).1.action.requestId == id
  {
  }

  lemma SuccessKeepsInv(c: Paste, id: Uuid, path: string, next: Paste)
    requires Inv(c) && next == MarkUploadSucceeded(c, id, path).0
    ensures Inv(next)
  {
    SucceededIsPoint(c, id, path);
    PointKeepsInv(c, UploadSucceeded(id, path), next);
  }

  // An automatic insertion is settled before the next message is looked at.
  lemma UploadedKeepsCalm(c: Paste, id: Uuid, path: string, env: Env, next: Paste)
    requires Calm(c) && next == OnUploaded(c, id, path, env)
    ensures Calm(next)
  {
    var context := ActiveUploadBindingContext(c, id);
    if context.Some? {
      if !env.isCurrent(context.value) {
        EventKeepsCalm(c, ConnectionInvalid(id, LOST_BEFORE), next);
      } else {
        var after, completion := MarkUploadSucceeded(c, id, path).0, MarkUploadSucceeded(c, id, path).1;
        SuccessKeepsInv(c, id, path, after);
        SucceededSettlesOthers(c, id, path);
        if completion.AutoInsert? {
          CompletionNamesId(c, id, path);
          AutoInsertSettles(after, completion.action, env, next);
        }
      }
    }
  }

  lemma MessageKeepsCalm(c: Paste, m: Message, env: Env, next: Paste)
    requires Calm(c) && next == OnMessage(c, m, env)
    ensures Calm(next)
  {
    match m
    case PreparedOk(id, encoded) => EventKeepsCalm(c, Prepared(id, encoded), next);
    case PreparedErr(id, error) => EventKeepsCalm(c, PreparationFailed(id, error), next);
    case UploadedOk(id, path) => UploadedKeepsCalm(c, id, path, env, next);
    case UploadedErr(id, error) => EventKeepsCalm(c, UploadFailed(id, error), next);
    case ProgressReport(id, transferred, total, nanos) =>
      EventKeepsCalm(c, Progress(id, transferred, total, nanos), next);
  }

  lemma {:induction false} MessagesKeepCalm(c: Paste, ms: seq<Delivery>)
    requires Calm(c)
    ensures Calm(OnMessages(c, ms))
  {
    if ms != [] {
      MessagesKeepCalm(c, ms[..|ms| - 1]);
      MessageKeepsCalm(OnMessages(c, ms[..|ms| - 1]), ms[|ms| - 1].message, ms[|ms| - 1].env, OnMessages(c, ms));
    }
  }

  lemma InvalidationIsCalm(c: Paste, context: BindingContext, closing: Closing, next: Paste)
    requires Calm(c)
    requires next == if closing.isCurrent(context) then c else MarkConnectionInvalid(c, context.requestId, LOST_AFTER).0
    ensures Calm(next)
  {
    InvalidIsCalm(c, context.requestId, LOST_AFTER, MarkConnectionInvalid(c, context.requestId, LOST_AFTER).0);
  }

  lemma {:induction false} SweepKeepsCalm(c: Paste, contexts: seq<BindingContext>, closing: Closing)
    requires Calm(c)
    ensures Calm(InvalidateLost(c, contexts, closing))
  {
    if contexts != [] {
      var front, context := contexts[..|contexts| - 1], contexts[|contexts| - 1];
      SweepKeepsCalm(c, front, closing);
      InvalidationIsCalm(InvalidateLost(c, front, closing), context, closing, InvalidateLost(c, contexts, closing));
    }
  }

  // The state in which a drain looks for the next upload.
  function BeforeTake(c: Paste, ms: seq<Delivery>, closing: Closing): Paste {
    var fed := OnMessages(c, ms);
    ExpireSuccess(InvalidateLost(fed, StaleContexts(fed.requests), closing), closing.now).0
  }

  lemma DrainIsTake(c: Paste, ms: seq<Delivery>, closing: Closing)
    ensures Drained(c, ms, closing) == TakeNextUpload(BeforeTake(c, ms, closing))
  {
  }

  lemma BeforeTakeIsCalm(c: Paste, ms: seq<Delivery>, closing: Closing)
    requires Calm(c)
    ensures Calm(BeforeTake(c, ms, closing))
  {
    MessagesKeepCalm(c, ms);
    SweptIsCalm(OnMessages(c, ms), closing, BeforeTake(c, ms, closing));
  }

  lemma SweptIsCalm(fed: Paste, closing: Closing, next: Paste)
    requires Calm(fed)
    requires next == ExpireSuccess(InvalidateLost(fed, StaleContexts(fed.requests), closing), closing.now).0
    ensures Calm(next)
  {
    SweepKeepsCalm(fed, StaleContexts(fed.requests), closing);
    ExpiryIsCalm(InvalidateLost(fed, StaleContexts(fed.requests), closing), closing.now, next);
  }

  lemma ExpiryIsCalm(c: Paste, now: nat, next: Paste)
    requires Calm(c) && next == ExpireSuccess(c, now).0
    ensures Calm(next)
  {
    EventKeepsCalm(c, Expire(now), next);
  }

  lemma AppStepKeepsCalm(c: Paste, step: AppStep, next: Paste)
    requires Calm(c) && IsAppStep(step) && (step.UserStep? ==> Fresh(c, step.event)) && next == AppNext(c, step).0
    ensures Calm(next)
  {
    match step
    case UserStep(e) => EventKeepsCalm(c, e, next);
    case DrainStep(ms, closing) =>
      BeforeTakeIsCalm(c, ms, closing);
      DrainIsTake(c, ms, closing);
      EventKeepsCalm(BeforeTake(c, ms, closing), TakeNext, next);
  }

  // ---------------------------------------------------------------- over application runs

  lemma UserStepExpands(c: Paste, step: AppStep)
    requires step.UserStep?
    ensures EXPAND(c, step) == [step.event]
  {
  }

  // A user step is one event of the run it expands into, so its registration is fresh there.
  lemma UserStepIsEvent(front: seq<AppStep>, step: AppStep)
    requires step.UserStep?
    ensures AppEvents(front + [step]) == AppEvents(front) + [step.event]
  {
    ExpansionSnoc(STEP, EXPAND, INITIAL, front, step);
    UserStepExpands(Fold(STEP, INITIAL, AppEvents(front)), step);
  }

  lemma UserEventAt(steps: seq<AppStep>, n: nat, es: seq<Event>)
    requires n < |steps| && steps[n].UserStep? && AppEvents(steps[..n + 1]) <= es
    ensures |AppEvents(steps[..n])| < |es| && es[|AppEvents(steps[..n])|] == steps[n].event
  {
    UserStepIsEvent(steps[..n], steps[n]);
    assert steps[..n + 1] == steps[..n] + [steps[n]];
    assert es[|AppEvents(steps[..n])|] == AppEvents(steps[..n + 1])[|AppEvents(steps[..n])|];
  }

  lemma UserStepIsFresh(steps: seq<AppStep>, ss: seq<Paste>, n: nat)
    requires IsAppRun(steps, ss) && ss[0] == INITIAL && n < |steps| && FreshIds(AppEvents(steps))
    requires steps[n].UserStep?
    ensures Fresh(ss[n], steps[n].event)
  {
    AppRunsAreRuns(steps, ss, n);
    AppRunsAreRuns(steps, ss, n + 1);
    UserEventAt(steps, n, AppEvents(steps));
    FreshAt(AppEvents(steps), |AppEvents(steps[..n])|);
  }

  lemma FreshAt(es: seq<Event>, at: nat)
    requires FreshIds(es) && at < |es|
    ensures Fresh(States(es)[at], es[at])
  {
    StatesAreARun(es);
    RunsKeepInvariant(es, States(es), at);
    RegistrationIsFresh(es, States(es)[at], at);
  }

  // Results reach the controller through drains, and every registration has a fresh id.
  ghost predicate IsApplication(steps: seq<AppStep>, ss: seq<Paste>) {
    && IsAppRun(steps, ss) && ss[0] == INITIAL && FreshIds(AppEvents(steps))
    && forall k :: 0 <= k < |steps| ==> IsAppStep(steps[k])
  }

  // Between two steps of the application no request awaits insertion: every automatic insertion is
  // settled inside the drain that brought the upload's result.
  lemma {:induction false} NothingAwaitsBetweenSteps(steps: seq<AppStep>, ss: seq<Paste>, n: nat)
    requires IsApplication(steps, ss) && n <= |steps|
    ensures Inv(ss[n]) && forall r :: r in ss[n].requests ==> r.state != AwaitingInsert
  {
    if n > 0 {
      NothingAwaitsBetweenSteps(steps, ss, n - 1);
      CalmAtNext(steps, ss, n - 1);
    }
  }

  lemma CalmAtNext(steps: seq<AppStep>, ss: seq<Paste>, n: nat)
    requires IsApplication(steps, ss) && n < |steps| && Calm(ss[n])
    ensures Calm(ss[n + 1])
  {
    assert Moment(n);
    if steps[n].UserStep? {
      UserStepIsFresh(steps, ss, n);
    }
    AppStepKeepsCalm(ss[n], steps[n], ss[n + 1]);
  }

  // Some request ahead of position q is still being prepared.
  ghost predicate WaitsForPreparing(c: Paste, q: nat)
    requires q < |c.requests|
  {
    exists b :: 0 <= b < q && c.requests[b].state == Preparing
  }

  lemma TakingLeavesOnlyBlocked(c: Paste, next: Paste, q: nat)
    requires Calm(c) && next == TakeNextUpload(c).0 && next.activeUploadId == None
    requires q < |next.requests| && next.requests[q].state == Queued
    ensures WaitsForPreparing(next, q)
  {
    var found := NextQueued(c.requests, 0);
    if found.Some? {
      ScanFindsOwner(c);
      assert false;
    }
    var b :| 0 <= b < q && !SkippedByScan(c.requests[b].state) && c.requests[b].state != Queued;
    assert c.requests[b] in c.requests && !Awaits(c.requests[b]);
  }

  // So after every drain the slot is taken, or each queued request waits for an earlier one that is still
  // being prepared: a drain never leaves an upload unstarted that could start.
  lemma DrainLeavesOnlyBlocked(steps: seq<AppStep>, ss: seq<Paste>, n: nat, q: nat)
    requires IsApplication(steps, ss) && n < |steps| && steps[n].DrainStep?
    requires q < |ss[n + 1].requests| && ss[n + 1].requests[q].state == Queued
    ensures ss[n + 1].activeUploadId.Some? || WaitsForPreparing(ss[n + 1], q)
  {
    NothingAwaitsBetweenSteps(steps, ss, n);
    assert Moment(n);
    assert Calm(ss[n]);
    BeforeTakeIsCalm(ss[n], steps[n].ms, steps[n].closing);
    DrainIsTake(ss[n], steps[n].ms, steps[n].closing);
    if ss[n + 1].activeUploadId.None? {
      TakingLeavesOnlyBlocked(BeforeTake(ss[n], steps[n].ms, steps[n].closing), ss[n + 1], q);
    }
  }

  // ---------------------------------------------------------------- a run that wedges the queue

  // Two pastes from different sessions, and what the environment answers meanwhile.
  datatype Wedge = Wedge(s: Uuid, t: Uuid, binding: Uuid, runtime: Runtime, first: Uuid, second: Uuid,
                         image: EncodedImage, path: string, env: Env, closing: Closing)

  // Both are registered and prepared, the first one's upload starts, its session is closed, and then the
  // upload succeeds.
  function WedgeSteps(w: Wedge): seq<AppStep> {
    [UserStep(Register(w.s, w.binding, w.runtime, w.first)),
     UserStep(Register(w.t, w.binding, w.runtime, w.second)),
     DrainStep([Delivery(PreparedOk(w.first, w.image), w.env), Delivery(PreparedOk(w.second, w.image), w.env)], w.closing),
     UserStep(SessionRemoved(w.s)),
     DrainStep([Delivery(UploadedOk(w.first, w.path), w.env)], w.closing)]
  }

  predicate Apart(w: Wedge) {
    w.s != w.t && w.first != w.second
  }

  function NewFirst(w: Wedge): Request {
    NewRequest(INITIAL, w.s, w.binding, w.runtime, w.first)
  }

  function NewSecond(w: Wedge): Request {
    NewRequest(INITIAL, w.t, w.binding, w.runtime, w.second)
  }

  function Started(r: Request): Request {
    r.(runtime := None, pngBytes := None, state := Uploading, detail := "Uploading image")
  }

  function Registered1(w: Wedge): Paste {
    Paste(map[w.s := 0], [NewFirst(w)], None, 1)
  }

  function Registered2(w: Wedge): Paste {
    Paste(map[w.s := 0, w.t := 0], [NewFirst(w), NewSecond(w)], None, 2)
  }

  function BothQueued(w: Wedge): Paste {
    Paste(map[w.s := 0, w.t := 0],
          [ClipboardPaste.Prepared(NewFirst(w), w.image), ClipboardPaste.Prepared(NewSecond(w), w.image)], None, 4)
  }

  function FirstStarted(w: Wedge): Paste {
    var rs := BothQueued(w).requests;
    Paste(map[w.s := 0, w.t := 0], [Started(rs[0]), rs[1]], Some(w.first), 5)
  }

  function FirstOrphaned(w: Wedge): Paste {
    var rs := FirstStarted(w).requests;
    Paste(map[w.t := 0], [ToTombstone(rs[0]), rs[1]], Some(w.first), 6)
  }

  lemma TwoRegister(w: Wedge)
    requires Apart(w)
    ensures Step(INITIAL, Register(w.s, w.binding, w.runtime, w.first)) == Registered1(w)
    ensures Step(Registered1(w), Register(w.t, w.binding, w.runtime, w.second)) == Registered2(w)
  {
    FilterAll(Registered1(w).requests, IsRetained);
  }

  lemma PreparedAt(c: Paste, i: nat, encoded: EncodedImage)
    requires UniqueIds(c.requests) && i < |c.requests| && c.requests[i].state == Preparing
    ensures MarkPrepared(c, c.requests[i].requestId, encoded).0
            == Bump(Replace(c, i, ClipboardPaste.Prepared(c.requests[i], encoded)))
  {
    assert c.requests[i] in c.requests;
  }

  lemma OnMessagesSnoc(c: Paste, front: seq<Delivery>, d: Delivery)
    ensures OnMessages(c, front + [d]) == OnMessage(OnMessages(c, front), d.message, d.env)
  {
    assert (front + [d])[..|front|] == front;
  }

  lemma BothArePrepared(w: Wedge)
    requires Apart(w)
    ensures OnMessages(Registered2(w), WedgeSteps(w)[2].ms) == BothQueued(w)
  {
    var c, ms := Registered2(w), WedgeSteps(w)[2].ms;
    OnMessagesSnoc(c, [], ms[0]);
    OnMessagesSnoc(c, [ms[0]], ms[1]);
    assert ms == [ms[0]] + [ms[1]] && [] + [ms[0]] == [ms[0]];
    PreparedAt(c, 0, w.image);
    PreparedAt(OnMessages(c, [ms[0]]), 1, w.image);
  }

  // A drain of a queue with nothing stale or succeeded sweeps and expires nothing.
  lemma NothingToSweep(c: Paste, closing: Closing)
    requires forall r :: r in c.requests ==> !r.state.Stale? && !r.state.Success?
    ensures ExpireSuccess(InvalidateLost(c, StaleContexts(c.requests), closing), closing.now).0 == c
  {
    if StaleContexts(c.requests) != [] {
      var r := StaleContextsAreStale(c.requests, 0);
    }
    FilterAll(c.requests, (r: Request) => OutlivesFeedback(r, closing.now));
  }

  lemma FirstIsTaken(w: Wedge)
    ensures TakeNextUpload(BothQueued(w)).0 == FirstStarted(w)
  {
    assert NextQueued(BothQueued(w).requests, 0) == Some(0);
  }

  lemma FirstStarts(w: Wedge)
    requires Apart(w)
    ensures Drained(Registered2(w), WedgeSteps(w)[2].ms, w.closing).0 == FirstStarted(w)
  {
    BothArePrepared(w);
    NothingToSweep(BothQueued(w), w.closing);
    DrainIsTake(Registered2(w), WedgeSteps(w)[2].ms, w.closing);
    FirstIsTaken(w);
  }

  lemma FirstIsOrphaned(w: Wedge)
    requires Apart(w)
    ensures Step(FirstStarted(w), SessionRemoved(w.s)) == FirstOrphaned(w)
  {
    var c := FirstStarted(w);
    var keep := (r: Request) => SurvivesRemoval(r, w.s, c.activeUploadId);
    FilterAll(c.requests, keep);
    assert c.requests[0] in c.requests;
    assert WithoutSession(c.requests, w.s, c.activeUploadId) == FirstOrphaned(w).requests;
  }

  lemma OrphanIsLeft(w: Wedge)
    requires Apart(w)
    ensures Drained(FirstOrphaned(w), WedgeSteps(w)[4].ms, w.closing).0 == FirstOrphaned(w)
    ensures Orphaned(FirstOrphaned(w), w.first)
  {
    var c, ms := FirstOrphaned(w), WedgeSteps(w)[4].ms;
    OnMessagesSnoc(c, [], ms[0]);
    assert ms == [] + [ms[0]];
    OrphanIgnoresSuccess(c, w.first, w.path, w.env, w.first);
    NothingToSweep(c, w.closing);
    DrainIsTake(c, ms, w.closing);
  }

  // The state after the first k of the five steps.
  function WedgeState(w: Wedge, k: nat): Paste {
    if k == 0 then INITIAL
    else if k == 1 then Registered1(w)
    else if k == 2 then Registered2(w)
    else if k == 3 then FirstStarted(w)
    else FirstOrphaned(w)
  }

  lemma WedgeNext(w: Wedge, k: nat)
    requires Apart(w) && k < 5
    ensures AppNext(WedgeState(w, k), WedgeSteps(w)[k]).0 == WedgeState(w, k + 1)
  {
    if k < 2 {
      TwoRegister(w);
    } else if k == 2 {
      FirstStarts(w);
    } else if k == 3 {
      FirstIsOrphaned(w);
    } else {
      OrphanIsLeft(w);
    }
  }

  lemma {:induction false} WedgeRun(w: Wedge, steps: seq<AppStep>, ss: seq<Paste>, k: nat)
    requires Apart(w) && WedgeSteps(w) <= steps && IsAppRun(steps, ss) && ss[0] == INITIAL && k <= 5
    ensures ss[k] == WedgeState(w, k)
  {
    if k > 0 {
      WedgeRun(w, steps, ss, k - 1);
      WedgeNext(w, k - 1);
      assert Moment(k - 1);
      assert steps[k - 1] == WedgeSteps(w)[k - 1];
    }
  }

  lemma FirstOrphanedIsReachable(w: Wedge)
    requires Apart(w)
    ensures Inv(FirstOrphaned(w))
  {
    var c := FirstOrphaned(w);
    FilterSize(c.requests);
  }

  lemma {:induction false} FilterSize(rs: seq<Request>)
    ensures RetainedCount(rs) <= |rs|
  {
    var idx := FilterIndices(rs, IsRetained);
    if |idx| > |rs| {
      EmbedsFits(idx, |rs|);
    }
  }

  lemma {:induction false} EmbedsFits(idx: seq<nat>, n: nat)
    requires Embeds(idx, n)
    ensures |idx| <= n
  {
    if idx != [] {
      EmbedsFits(idx[..|idx| - 1], idx[|idx| - 1]);
    }
  }

  lemma OrphanMeansNoUploading(c: Paste, id: Uuid)
    requires Inv(c) && Orphaned(c, id)
    ensures c.activeUploadId == Some(id) && forall r :: r in c.requests ==> r.state != Uploading
  {
  }

  // The orphan stays for good, and starts nothing, from moment five of such a run.
  lemma OrphanStays(w: Wedge, steps: seq<AppStep>, ss: seq<Paste>, n: nat)
    requires Apart(w) && WedgeSteps(w) <= steps && IsAppRun(steps, ss) && ss[0] == INITIAL
    requires 5 <= n <= |steps| && forall k :: 5 <= k < n ==> Quiet(ss[k], steps[k], w.first)
    ensures Inv(ss[n]) && Orphaned(ss[n], w.first)
  {
    WedgeRun(w, steps, ss, 5);
    OrphanIsLeft(w);
    FirstOrphanedIsReachable(w);
    OrphanSurvivesRun(steps, ss, w.first, 5, n);
  }

  // The queue can wedge for good: a run from the start after which the second image is queued and ready,
  // and while the first upload is not reported as failed nothing is ever uploaded again.
  lemma QueueWedges(w: Wedge, steps: seq<AppStep>, ss: seq<Paste>, n: nat)
    requires Apart(w) && WedgeSteps(w) <= steps && IsAppRun(steps, ss) && ss[0] == INITIAL
    requires 5 <= n <= |steps| && forall k :: 5 <= k < n ==> Quiet(ss[k], steps[k], w.first)
    ensures |ss[5].requests| == 2
            && var second := ss[5].requests[1];
               second.requestId == w.second && second.state == Queued && second.runtime.Some? && second.pngBytes.Some?
    ensures ss[n].activeUploadId == Some(w.first) && forall r :: r in ss[n].requests ==> r.state != Uploading
    ensures n < |steps| && Quiet(ss[n], steps[n], w.first) ==> AppNext(ss[n], steps[n]).1 == None
  {
    WedgeRun(w, steps, ss, 5);
    OrphanStays(w, steps, ss, n);
    OrphanMeansNoUploading(ss[n], w.first);
    if n < |steps| && Quiet(ss[n], steps[n], w.first) {
      OrphanSurvivesStep(ss[n], steps[n], w.first);
    }
  }
}
