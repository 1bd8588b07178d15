// Application runs, in which the drain loop feeds the controller, as event runs of the controller: every
// run theorem applies to them, and the loop's own habit of noting input shows in what completes how.
module ClipboardPasteApp {
  import opened Common
  import opened Folding
  import opened ClipboardPaste
  import opened ClipboardPasteInvariants
  import opened ClipboardPasteRuns
  import opened ClipboardPasteDrain

  // ---------------------------------------------------------------- the events of one drain

  const STEP: (Paste, Event) -> Paste := (c, e) => Step(c, e)

  function After(c: Paste, es: seq<Event>): Paste {
    Fold(STEP, c, es)
  }

  lemma AfterConcat(c: Paste, a: seq<Event>, b: seq<Event>)
    ensures After(c, a + b) == After(After(c, a), b)
  {
    FoldConcat(STEP, c, a, b);
  }

  lemma AfterOne(c: Paste, e: Event)
    ensures After(c, [e]) == Step(c, e) && After(c, []) == c
  {
    FoldSnoc(STEP, c, [], e);
    assert [] + [e] == [e];
  }

  function AfterPaste(action: PathAction, env: Env): Event {
    match env.paste(action)
    case Sent => Inserted(action.requestId, env.now)
    case BindingLost => ConnectionInvalid(action.requestId, LOST_BEFORE)
    case SendError(error) => ConnectionInvalid(action.requestId, error)
  }

  function UploadedEvents(c: Paste, id: Uuid, path: string, env: Env): seq<Event> {
    var context := ActiveUploadBindingContext(c, id);
    if context.None? then []
    else if !env.isCurrent(context.value) then [ConnectionInvalid(id, LOST_BEFORE)]
    else
      var completion := MarkUploadSucceeded(c, id, path).1;
      if completion.AutoInsert?
      then [UploadSucceeded(id, path), NoteInput(completion.action.sessionId), AfterPaste(completion.action, env)]
      else [UploadSucceeded(id, path)]
  }

  function MessageEvents(c: Paste, m: Message, env: Env): seq<Event> {
    match m
    case PreparedOk(id, encoded) => [Prepared(id, encoded)]
    case PreparedErr(id, error) => [PreparationFailed(id, error)]
    case UploadedOk(id, path) => UploadedEvents(c, id, path, env)
    case UploadedErr(id, error) => [UploadFailed(id, error)]
    case ProgressReport(id, transferred, total, nanos) => [Progress(id, transferred, total, nanos)]
  }

  function MessagesEvents(c: Paste, ms: seq<Delivery>): seq<Event> {
    if ms == [] then []
    else
      var before, last := ms[..|ms| - 1], ms[|ms| - 1];
      MessagesEvents(c, before) + MessageEvents(OnMessages(c, before), last.message, last.env)
  }

  function SweepEvents(contexts: seq<BindingContext>, closing: Closing): seq<Event> {
    if contexts == [] then []
    else
      var context := contexts[|contexts| - 1];
      SweepEvents(contexts[..|contexts| - 1], closing)
      + (if closing.isCurrent(context) then [] else [ConnectionInvalid(context.requestId, LOST_AFTER)])
  }

  function StepEvents(c: Paste, step: AppStep): seq<Event> {
    match step
    case UserStep(e) => [e]
    case DrainStep(ms, closing) =>
      var fed := OnMessages(c, ms);
      MessagesEvents(c, ms) + SweepEvents(StaleContexts(fed.requests), closing) + [Expire(closing.now), TakeNext]
  }

  lemma AfterTwo(c: Paste, a: Event, b: Event)
    ensures After(c, [a, b]) == Step(Step(c, a), b)
  {
    AfterOne(c, a);
    FoldSnoc(STEP, c, [a], b);
    assert [a] + [b] == [a, b];
  }

  lemma AfterThree(c: Paste, a: Event, b: Event, d: Event)
    ensures After(c, [a, b, d]) == Step(Step(Step(c, a), b), d)
  {
    AfterTwo(c, a, b);
    FoldSnoc(STEP, c, [a, b], d);
    assert [a, b] + [d] == [a, b, d];
  }

  lemma MessageIsEvents(c: Paste, m: Message, env: Env)
    ensures After(c, MessageEvents(c, m, env)) == OnMessage(c, m, env)
  {
    match m
    case PreparedOk(id, encoded) => AfterOne(c, Prepared(id, encoded));
    case PreparedErr(id, error) => AfterOne(c, PreparationFailed(id, error));
    case UploadedOk(id, path) => UploadedIsEvents(c, id, path, env);
    case UploadedErr(id, error) => AfterOne(c, UploadFailed(id, error));
    case ProgressReport(id, transferred, total, nanos) => AfterOne(c, Progress(id, transferred, total, nanos));
  }

  lemma UploadedIsEvents(c: Paste, id: Uuid, path: string, env: Env)
    ensures After(c, UploadedEvents(c, id, path, env)) == OnUploaded(c, id, path, env)
  {
    AfterOne(c, ConnectionInvalid(id, LOST_BEFORE));
    AfterOne(c, UploadSucceeded(id, path));
    var completion := MarkUploadSucceeded(c, id, path).1;
    if completion.AutoInsert? {
      AfterThree(c, UploadSucceeded(id, path), NoteInput(completion.action.sessionId), AfterPaste(completion.action, env));
    }
  }

  lemma {:induction false} MessagesAreEvents(c: Paste, ms: seq<Delivery>)
    ensures After(c, MessagesEvents(c, ms)) == OnMessages(c, ms)
  {
    if ms != [] {
      var before, last := ms[..|ms| - 1], ms[|ms| - 1];
      var fed := OnMessages(c, before);
      MessagesAreEvents(c, before);
      MessageIsEvents(fed, last.message, last.env);
      AfterConcat(c, MessagesEvents(c, before), MessageEvents(fed, last.message, last.env));
    }
  }

  lemma {:induction false} SweepIsEvents(c: Paste, contexts: seq<BindingContext>, closing: Closing)
    ensures After(c, SweepEvents(contexts, closing)) == InvalidateLost(c, contexts, closing)
  {
    if contexts != [] {
      var front, context := contexts[..|contexts| - 1], contexts[|contexts| - 1];
      SweepIsEvents(c, front, closing);
      var lost := ConnectionInvalid(context.requestId, LOST_AFTER);
      AfterConcat(c, SweepEvents(front, closing), [lost]);
      AfterOne(InvalidateLost(c, front, closing), lost);
      assert SweepEvents(front, closing) + [] == SweepEvents(front, closing);
    }
  }

  // A step of the application is a sequence of events of the controller.
  lemma StepIsEvents(c: Paste, step: AppStep)
    ensures After(c, StepEvents(c, step)) == AppNext(c, step).0
  {
    match step
    case UserStep(e) => AfterOne(c, e);
    case DrainStep(ms, closing) => DrainIsEvents(c, ms, closing);
  }

  lemma DrainIsEvents(c: Paste, ms: seq<Delivery>, closing: Closing)
    ensures After(c, StepEvents(c, DrainStep(ms, closing))) == Drained(c, ms, closing).0
  {
    var fed := OnMessages(c, ms);
    var contexts := StaleContexts(fed.requests);
    var messages, sweep, tail := MessagesEvents(c, ms), SweepEvents(contexts, closing), [Expire(closing.now), TakeNext];
    MessagesAreEvents(c, ms);
    SweepIsEvents(fed, contexts, closing);
    AfterConcat(c, messages, sweep);
    AfterConcat(c, messages + sweep, tail);
    AfterTwo(InvalidateLost(fed, contexts, closing), Expire(closing.now), TakeNext);
  }

  // ---------------------------------------------------------------- application runs are event runs

  const EXPAND: (Paste, AppStep) -> seq<Event> := (c, step) => StepEvents(c, step)

  function AppEvents(steps: seq<AppStep>): seq<Event> {
    Expansion(STEP, EXPAND, INITIAL, steps)
  }

  lemma AppRunIsCoarse(steps: seq<AppStep>, ss: seq<Paste>)
    requires IsAppRun(steps, ss)
    ensures IsCoarseRun(STEP, EXPAND, steps, ss)
  {
    forall n: nat | n < |steps| && Moment(n) ensures ss[n + 1] == Fold(STEP, ss[n], EXPAND(ss[n], steps[n])) {
      AppStepIsFold(ss[n], steps[n], ss[n + 1]);
    }
  }

  lemma AppStepIsFold(c: Paste, step: AppStep, next: Paste)
    requires next == AppNext(c, step).0
    ensures next == Fold(STEP, c, EXPAND(c, step))
  {
    StepIsEvents(c, step);
  }

  // Every moment of an application run is a moment of the controller's own run of the same events.
  lemma AppRunsAreRuns(steps: seq<AppStep>, ss: seq<Paste>, n: nat)
    requires IsAppRun(steps, ss) && ss[0] == INITIAL && n <= |steps|
    ensures AppEvents(steps[..n]) <= AppEvents(steps)
    ensures |AppEvents(steps[..n])| < |States(AppEvents(steps))|
    ensures ss[n] == States(AppEvents(steps))[|AppEvents(steps[..n])|]
  {
    AppRunIsCoarse(steps, ss);
    CoarseState(STEP, EXPAND, steps, ss, n);
    ExpansionGrows(STEP, EXPAND, INITIAL, steps, n);
    PrefixState(AppEvents(steps), AppEvents(steps[..n]));
  }

  lemma PrefixState(es: seq<Event>, prefix: seq<Event>)
    requires prefix <= es
    ensures |prefix| < |States(es)| && States(es)[|prefix|] == After(INITIAL, prefix)
  {
    AfterIsState(es, |prefix|);
    assert es[..|prefix|] == prefix;
  }

  lemma AfterSnoc(c: Paste, es: seq<Event>, e: Event)
    ensures After(c, es + [e]) == Step(After(c, es), e)
  {
    FoldSnoc(STEP, c, es, e);
  }

  lemma AfterNext(es: seq<Event>, n: nat)
    requires n < |es|
    ensures After(INITIAL, es[..n + 1]) == Step(After(INITIAL, es[..n]), es[n])
  {
    AfterSnoc(INITIAL, es[..n], es[n]);
    assert es[..n + 1] == es[..n] + [es[n]];
  }

  lemma AfterIsState(es: seq<Event>, n: nat)
    requires n <= |es|
    ensures States(es)[n] == After(INITIAL, es[..n])
  {
    var ss := seq(|es| + 1, k requires 0 <= k <= |es| => After(INITIAL, es[..k]));
    forall k: nat | k < |es| && Moment(k) ensures ss[k + 1] == Step(ss[k], es[k]) {
      AfterNext(es, k);
    }
    RunsAreUnique(es, ss);
  }

  // ---------------------------------------------------------------- insertions note input

  // An automatic insertion is followed at once by a terminal input of its session.
  predicate Noted(c: Paste, e: Event, next: Option<Event>) {
    CompletionOf(c, e).AutoInsert? ==> next == Some(NoteInput(CompletionOf(c, e).action.sessionId))
  }

  const NOTED: Condition<Paste, Event> := (c, e, next) => Noted(c, e, next)

  ghost predicate NotesInsertions(c: Paste, es: seq<Event>) {
    Holds(STEP, NOTED, c, es)
  }

  lemma NotesConcat(c: Paste, a: seq<Event>, b: seq<Event>)
    requires NotesInsertions(c, a) && NotesInsertions(After(c, a), b)
    ensures NotesInsertions(c, a + b)
  {
    HoldsConcat(STEP, NOTED, c, a, b);
  }

  predicate NoCompletion(e: Event) {
    !e.UploadSucceeded?
  }

  lemma NotesWithoutCompletions(c: Paste, es: seq<Event>)
    requires forall k :: 0 <= k < |es| ==> NoCompletion(es[k])
    ensures NotesInsertions(c, es)
  {
    forall j | 0 <= j < |es| ensures HoldsAt(STEP, NOTED, c, es, j) {
      NotedWithoutCompletion(After(c, es[..j]), es[j], EventAt(es, j + 1));
    }
  }

  lemma NotedWithoutCompletion(c: Paste, e: Event, next: Option<Event>)
    requires NoCompletion(e)
    ensures NOTED(c, e, next)
  {
  }

  lemma MessageNotes(c: Paste, m: Message, env: Env)
    ensures NotesInsertions(c, MessageEvents(c, m, env))
  {
    var es := MessageEvents(c, m, env);
    forall j | 0 <= j < |es| ensures HoldsAt(STEP, NOTED, c, es, j) {
      if j == 0 {
        assert es[..0] == [] && After(c, []) == c;
        assert Noted(c, es[0], EventAt(es, 1));
      } else {
        NotedWithoutCompletion(After(c, es[..j]), es[j], EventAt(es, j + 1));
      }
    }
  }

  lemma {:induction false} MessagesNote(c: Paste, ms: seq<Delivery>)
    ensures NotesInsertions(c, MessagesEvents(c, ms))
  {
    if ms != [] {
      var front, last := ms[..|ms| - 1], ms[|ms| - 1];
      MessagesNote(c, front);
      MessagesAreEvents(c, front);
      NextMessageNotes(c, MessagesEvents(c, front), OnMessages(c, front), last.message, last.env);
    }
  }

  lemma NextMessageNotes(c: Paste, before: seq<Event>, fed: Paste, m: Message, env: Env)
    requires NotesInsertions(c, before) && After(c, before) == fed
    ensures NotesInsertions(c, before + MessageEvents(fed, m, env))
  {
    MessageNotes(fed, m, env);
    NotesConcat(c, before, MessageEvents(fed, m, env));
  }

  lemma {:induction false} SweepCompletesNothing(contexts: seq<BindingContext>, closing: Closing)
    ensures forall k :: 0 <= k < |SweepEvents(contexts, closing)| ==> NoCompletion(SweepEvents(contexts, closing)[k])
  {
    if contexts != [] {
      SweepCompletesNothing(contexts[..|contexts| - 1], closing);
    }
  }

  // Results reach the controller through the drain loop only.
  predicate IsAppStep(step: AppStep) {
    step.UserStep? ==> !step.event.UploadSucceeded?
  }

  lemma StepNotes(c: Paste, step: AppStep)
    requires IsAppStep(step)
    ensures NotesInsertions(c, StepEvents(c, step))
  {
    match step
    case UserStep(e) => NotesWithoutCompletions(c, [e]);
    case DrainStep(ms, closing) =>
      var fed := OnMessages(c, ms);
      var messages, sweep := MessagesEvents(c, ms), SweepEvents(StaleContexts(fed.requests), closing);
      var tail := [Expire(closing.now), TakeNext];
      MessagesNote(c, ms);
      SweepCompletesNothing(StaleContexts(fed.requests), closing);
      NotesWithoutCompletions(After(c, messages), sweep + tail);
      NotesConcat(c, messages, sweep + tail);
      assert messages + (sweep + tail) == StepEvents(c, step);
  }

  lemma AppNotes(steps: seq<AppStep>)
    requires forall k :: 0 <= k < |steps| ==> IsAppStep(steps[k])
    ensures NotesInsertions(INITIAL, AppEvents(steps))
  {
    forall c: Paste, k: nat | k < |steps| ensures Holds(STEP, NOTED, c, EXPAND(c, steps[k])) {
      StepNotes(c, steps[k]);
    }
    ExpansionHolds(STEP, EXPAND, NOTED, INITIAL, steps);
  }

  lemma {:induction false} InputCounts(es: seq<Event>, lo: nat, m: nat, hi: nat, s: Uuid)
    requires lo <= m < hi <= |es| && es[m] == NoteInput(s)
    ensures Inputs(es, lo, hi, s) > 0
    decreases hi
  {
    if m < hi - 1 {
      InputCounts(es, lo, m, hi - 1, s);
    }
  }

  lemma NoteAfterInsertion(es: seq<Event>, ss: seq<Paste>, j: nat)
    requires NotesInsertions(INITIAL, es) && IsRun(es, ss) && j < |es| && CompletionOf(ss[j], es[j]).AutoInsert?
    ensures j + 1 < |es| && es[j + 1] == NoteInput(CompletionOf(ss[j], es[j]).action.sessionId)
  {
    RunsAreUnique(es, ss);
    AfterIsState(es, j);
    assert HoldsAt(STEP, NOTED, INITIAL, es, j);
  }

  // Over any application run: once one image of a session was inserted automatically, no image of that
  // session registered before the insertion is inserted automatically any more (short of 2^64 inputs);
  // if its upload completes it is kept as stale.
  lemma OneInsertionStalesTheRest(steps: seq<AppStep>, es: seq<Event>, ss: seq<Paste>, i: nat, j: nat, k: nat)
    requires (forall n :: 0 <= n < |steps| ==> IsAppStep(steps[n])) && es == AppEvents(steps)
    requires FreshIds(es) && IsRun(es, ss) && i < j < k < |es|
    requires CompletionOf(ss[j], es[j]).AutoInsert? && CompletionOf(ss[k], es[k]) != Ignored
    requires es[k].UploadSucceeded? && RegistersId(es, i, es[k].requestId)
    requires es[i].sessionId == CompletionOf(ss[j], es[j]).action.sessionId
    ensures var inputs := Inputs(es, i + 1, k, es[i].sessionId);
            && inputs > 0
            && (inputs < U64_LIMIT ==> CompletionOf(ss[k], es[k]) == WentStale)
  {
    AppNotes(steps);
    InsertionStales(es, ss, i, j, k);
  }

  lemma InsertionStales(es: seq<Event>, ss: seq<Paste>, i: nat, j: nat, k: nat)
    requires NotesInsertions(INITIAL, es) && FreshIds(es) && IsRun(es, ss) && i < j < k < |es|
    requires CompletionOf(ss[j], es[j]).AutoInsert? && CompletionOf(ss[k], es[k]) != Ignored
    requires es[k].UploadSucceeded? && RegistersId(es, i, es[k].requestId)
    requires es[i].sessionId == CompletionOf(ss[j], es[j]).action.sessionId
    ensures var inputs := Inputs(es, i + 1, k, es[i].sessionId);
            && inputs > 0
            && (inputs < U64_LIMIT ==> CompletionOf(ss[k], es[k]) == WentStale)
  {
    NoteAfterInsertion(es, ss, j);
    InputCounts(es, i + 1, j + 1, k, es[i].sessionId);
    CompletionMatchesInput(es, ss, i, k);
  }
}
