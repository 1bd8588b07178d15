// Connection tests started from the SSH dialog: requests are numbered, results come back from
// background tasks in any order, and the dialog must only believe the newest (src/app/bootstrap.rs).
module SshModalTests {
  import opened Common

  type Profile(==, !new)

  datatype ModalAction = Save | Connect | TestConnection | SaveAndConnect

  datatype ActionState = Idle | Busy(action: ModalAction) | Success(message: string) | Error(message: string)

  datatype Approval<P> = Approval(profile: P, publicKey: string)

  datatype Prompt = Prompt(host: string, port: nat, fingerprint: string)

  // Everything a test result may write.
  datatype Modal<P> = Modal(
    actionState: ActionState,
    pendingAction: Option<ModalAction>,
    prompt: Option<Prompt>,
    approval: Option<Approval<P>>)

  datatype Outcome =
    | Connected
    | UnknownHostKey(host: string, port: nat, fingerprint: string, publicKey: string)
    | Failed(message: string)

  datatype Message<P> = TestConnectionFinished(requestId: nat, profile: P, outcome: Outcome)

  datatype Client<P> = Client(nextId: nat, active: Option<nat>, modal: Modal<P>, inbox: seq<Message<P>>)

  // u64::saturating_add(1).
  function NextId(id: nat): nat {
    if id < U64_MAX then id + 1 else U64_MAX
  }

  function Queued<P>(c: Client<P>): Client<P> {
    c.(nextId := NextId(c.nextId), active := Some(NextId(c.nextId)))
  }

  function Landed<P>(m: Modal<P>, profile: P, outcome: Outcome): Modal<P> {
    match outcome
    case Connected =>
      m.(pendingAction := None, actionState := Success("Connection test succeeded."))
    case UnknownHostKey(host, port, fingerprint, publicKey) =>
      m.(approval := Some(Approval(profile, publicKey)), prompt := Some(Prompt(host, port, fingerprint)))
    case Failed(message) =>
      m.(pendingAction := None, actionState := Error(message))
  }

  // Will the message at the head of the inbox be believed?
  predicate Lands<P(==)>(c: Client<P>) {
    && c.inbox != []
    && c.active == Some(c.inbox[0].requestId)
    && c.modal.actionState == Busy(TestConnection)
  }

  // One turn of the receiving loop.
  function Received<P(==)>(c: Client<P>): Client<P>
    requires c.inbox != []
  {
    var m := c.inbox[0];
    Client(
      c.nextId,
      if c.active == Some(m.requestId) then None else c.active,
      if Lands(c) then Landed(c.modal, m.profile, m.outcome) else c.modal,
      c.inbox[1..])
  }

  // The whole loop, and whether it reports a change.
  function Drained<P(==)>(c: Client<P>): (Client<P>, bool)
    decreases |c.inbox|
  {
    if c.inbox == [] then (c, false)
    else
      var rest := Drained(Received(c));
      (rest.0, Lands(c) || rest.1)
  }

  // ---------------------------------------------------------------- the stateful form

  class SshModalTestState {
    var nextRequestId: nat
    var activeRequestId: Option<nat>
    var modal: Modal<Profile>
    var inbox: seq<Message<Profile>>

    ghost function Abs(): Client<Profile>
      reads this
    {
      Client(nextRequestId, activeRequestId, modal, inbox)
    }

    constructor (shown: Modal<Profile>)
      ensures Abs() == Client(0, None, shown, [])
    {
      nextRequestId, activeRequestId, modal, inbox := 0, None, shown, [];
    }

    // Returns the id the background task will answer with.
    method QueueModalTestConnection() returns (requestId: nat)
      modifies this`nextRequestId, this`activeRequestId
      ensures Abs() == Queued(old(Abs())) && activeRequestId == Some(requestId)
    {
      requestId := if nextRequestId < U64_MAX then nextRequestId + 1 else U64_MAX;
      nextRequestId := requestId;
      activeRequestId := Some(requestId);
    }

    method Land(profile: Profile, outcome: Outcome)
      modifies this`modal
      ensures modal == Landed(old(modal), profile, outcome)
    {
      match outcome
      case Connected =>
        modal := modal.(pendingAction := None);
        modal := modal.(actionState := Success("Connection test succeeded."));
      case UnknownHostKey(host, port, fingerprint, publicKey) =>
        modal := modal.(approval := Some(Approval(profile, publicKey)));
        modal := modal.(prompt := Some(Prompt(host, port, fingerprint)));
      case Failed(message) =>
        modal := modal.(pendingAction := None);
        modal := modal.(actionState := Error(message));
    }

    method DrainMessages() returns (changed: bool)
      modifies this
      ensures (Abs(), changed) == Drained(old(Abs()))
      ensures inbox == [] && nextRequestId == old(nextRequestId)
    {
      changed := false;
      while inbox != []
        invariant Drained(old(Abs())) == (Drained(Abs()).0, changed || Drained(Abs()).1)
        invariant nextRequestId == old(nextRequestId)
        decreases |inbox|
      {
        ghost var before := Abs();
        var message := inbox[0];
        inbox := inbox[1..];
        if activeRequestId != Some(message.requestId) {
          assert Abs() == Received(before);
          continue;
        }
        activeRequestId := None;
        if modal.actionState != Busy(TestConnection) {
          assert Abs() == Received(before);
          continue;
        }
        Land(message.profile, message.outcome);
        assert Abs() == Received(before);
        changed := true;
      }
    }
  }

  // ---------------------------------------------------------------- runs

  datatype Stage = Running | Delivered | Consumed

  // A test that was started, with the id its task was given.
  datatype Test<P> = Test(id: nat, profile: P, stage: Stage)

  // senders[k] says which test, counted from the first ever started, sent inbox[k].
  datatype World<P> = World(client: Client<P>, tests: seq<Test<P>>, senders: seq<nat>)

  datatype Event<P> =
    | Start(profile: P)
    | Finish(test: nat, outcome: Outcome)
    | Receive
    | Edit(modal: Modal<P>)

  ghost predicate Allowed<P(!new)>(w: World<P>, e: Event<P>) {
    match e
    case Start(_) => true
    case Finish(t, _) => t < |w.tests| && w.tests[t].stage == Running
    case Receive => w.client.inbox != [] && |w.senders| > 0 && w.senders[0] < |w.tests|
    case Edit(_) => true
  }

  ghost function Step<P(!new)>(w: World<P>, e: Event<P>): World<P>
    requires Allowed(w, e)
  {
    match e
    case Start(profile) =>
      var c := Queued(w.client);
      World(c, w.tests + [Test(c.nextId, profile, Running)], w.senders)
    case Finish(t, outcome) =>
      var test := w.tests[t];
      World(w.client.(inbox := w.client.inbox + [TestConnectionFinished(test.id, test.profile, outcome)]),
            w.tests[t := test.(stage := Delivered)],
            w.senders + [t])
    case Receive =>
      var t := w.senders[0];
      World(Received(w.client), w.tests[t := w.tests[t].(stage := Consumed)], w.senders[1..])
    case Edit(modal) =>
      w.(client := w.client.(modal := modal))
  }

  ghost predicate Initial<P(!new)>(w: World<P>) {
    w.tests == [] && w.senders == [] && w.client == Client(0, None, w.client.modal, [])
  }

  // ws[n] is the world after the first n events of es.
  ghost predicate IsRun<P(!new)>(es: seq<Event<P>>, ws: seq<World<P>>) {
    && |ws| == |es| + 1
    && Initial(ws[0])
    && forall n: nat {:trigger Moment(n)} ::
         n < |es| && Moment(n) ==> Allowed(ws[n], es[n]) && ws[n + 1] == Step(ws[n], es[n])
  }

  // Holds however many tests were started.
  ghost predicate Inv<P(!new)>(w: World<P>) {
    var c := w.client;
    && |w.senders| == |c.inbox|
    && c.nextId == Min(|w.tests|, U64_MAX)
    && (forall t :: 0 <= t < |w.tests| ==> w.tests[t].id == Min(t + 1, U64_MAX))
    && (forall k :: 0 <= k < |w.senders| ==>
                      && w.senders[k] < |w.tests|
                      && w.tests[w.senders[k]].stage == Delivered
                      && c.inbox[k].requestId == w.tests[w.senders[k]].id
                      && c.inbox[k].profile == w.tests[w.senders[k]].profile)
    && (forall j, k :: 0 <= j < k < |w.senders| ==> w.senders[j] != w.senders[k])
  }

  // Until the counter saturates, a request id is outstanding exactly while the newest test is.
  ghost predicate ActiveIsNewest<P(!new)>(w: World<P>) {
    |w.tests| <= U64_MAX ==>
      w.client.active == if |w.tests| > 0 && w.tests[|w.tests| - 1].stage != Consumed then Some(|w.tests|) else None
  }

  lemma StepKeepsInv<P(!new)>(w: World<P>, e: Event<P>)
    requires Inv(w) && Allowed(w, e)
    ensures Inv(Step(w, e))
    ensures |w.tests| <= |Step(w, e).tests|
    ensures forall t :: 0 <= t < |w.tests| && w.tests[t].stage == Consumed ==> Step(w, e).tests[t].stage == Consumed
  {
    match e
    case Start(_) =>
    case Finish(t, outcome) =>
      var after := Step(w, e);
      forall k | 0 <= k < |after.senders|
        ensures after.senders[k] < |after.tests| && after.tests[after.senders[k]].stage == Delivered
      {
        if k < |w.senders| {
          assert after.senders[k] == w.senders[k];
        }
      }
    case Receive =>
      var after := Step(w, e);
      forall k | 0 <= k < |after.senders| ensures after.senders[k] == w.senders[k + 1] != w.senders[0] {
      }
    case Edit(_) =>
  }

  lemma StepKeepsActive<P(!new)>(w: World<P>, e: Event<P>)
    requires Inv(w) && ActiveIsNewest(w) && Allowed(w, e)
    ensures ActiveIsNewest(Step(w, e))
  {
    if e.Receive? {
      assert w.client.inbox[0].requestId == w.tests[w.senders[0]].id;
    }
  }

  lemma {:induction false} RunsKeepInv<P(!new)>(es: seq<Event<P>>, ws: seq<World<P>>, n: nat)
    requires IsRun(es, ws) && n <= |es|
    ensures Inv(ws[n]) && ActiveIsNewest(ws[n])
  {
    if n > 0 {
      RunsKeepInv(es, ws, n - 1);
      assert Moment(n - 1);
      StepKeepsInv(ws[n - 1], es[n - 1]);
      StepKeepsActive(ws[n - 1], es[n - 1]);
    }
  }

  // The test whose result step n takes from the channel.
  ghost predicate Consumes<P(!new)>(es: seq<Event<P>>, ws: seq<World<P>>, n: nat, t: nat) {
    n < |es| && n < |ws| && es[n].Receive? && |ws[n].senders| > 0 && ws[n].senders[0] == t
  }

  // Only results move the dialog outside of the user's own edits, and a result is believed if and
  // only if its test is the newest one and the dialog still waits for a test.
  lemma OnlyTheNewestLands<P(!new)>(es: seq<Event<P>>, ws: seq<World<P>>, n: nat, t: nat)
    requires IsRun(es, ws) && Consumes(es, ws, n, t) && |ws[n].tests| <= U64_MAX
    ensures Lands(ws[n].client) <==>
            (t == |ws[n].tests| - 1 && ws[n].client.modal.actionState == Busy(TestConnection))
    ensures t < |ws[n].tests| && ws[n].client.inbox != []
    ensures var before, after := ws[n].client.modal, ws[n + 1].client.modal;
            if !Lands(ws[n].client) then after == before
            else match ws[n].client.inbox[0].outcome
                 case Connected =>
                   && after.actionState == Success("Connection test succeeded.") && after.pendingAction == None
                   && after.prompt == before.prompt && after.approval == before.approval
                 case Failed(message) =>
                   && after.actionState == Error(message) && after.pendingAction == None
                   && after.prompt == before.prompt && after.approval == before.approval
                 case UnknownHostKey(host, port, fingerprint, publicKey) =>
                   && after.actionState == Busy(TestConnection) && after.pendingAction == before.pendingAction
                   && after.prompt == Some(Prompt(host, port, fingerprint))
                   && after.approval == Some(Approval(ws[n].tests[t].profile, publicKey))
  {
    RunsKeepInv(es, ws, n);
    assert Moment(n);
  }

  lemma OtherStepsLeaveTheModal<P(!new)>(es: seq<Event<P>>, ws: seq<World<P>>, n: nat)
    requires IsRun(es, ws) && n < |es| && ws[n + 1].client.modal != ws[n].client.modal
    ensures es[n].Edit? || (es[n].Receive? && Lands(ws[n].client))
  {
    assert Moment(n);
  }

  lemma {:induction false} ConsumedStays<P(!new)>(es: seq<Event<P>>, ws: seq<World<P>>, i: nat, j: nat, t: nat)
    requires IsRun(es, ws) && i <= j <= |es|
    requires t < |ws[i].tests| && ws[i].tests[t].stage == Consumed
    ensures t < |ws[j].tests| && ws[j].tests[t].stage == Consumed
    decreases j
  {
    if i < j {
      ConsumedStays(es, ws, i, j - 1, t);
      RunsKeepInv(es, ws, j - 1);
      assert Moment(j - 1);
      StepKeepsInv(ws[j - 1], es[j - 1]);
    }
  }

  // Each test's result is taken from the channel, and so believed, at most once, saturated or not.
  lemma EachResultIsConsumedOnce<P(!new)>(es: seq<Event<P>>, ws: seq<World<P>>, i: nat, j: nat, t: nat, u: nat)
    requires IsRun(es, ws) && i < j && Consumes(es, ws, i, t) && Consumes(es, ws, j, u)
    ensures t != u
  {
    RunsKeepInv(es, ws, i);
    assert Moment(i);
    assert ws[i + 1].tests[t].stage == Consumed;
    ConsumedStays(es, ws, i + 1, j, t);
    RunsKeepInv(es, ws, j);
  }

  // ---------------------------------------------------------------- the bound is exact

  // The world after k tests were started, the one numbered U64_MAX for another profile.
  ghost function Started<P(!new)>(shown: Modal<P>, older: P, newer: P, k: nat): World<P> {
    World(Client(Min(k, U64_MAX), if k == 0 then None else Some(Min(k, U64_MAX)), shown, []),
          seq(k, i requires 0 <= i < k => StartedTest(older, newer, i)),
          [])
  }

  ghost function StartedTest<P(!new)>(older: P, newer: P, i: nat): Test<P> {
    Test(Min(i + 1, U64_MAX), if i == U64_MAX then newer else older, Running)
  }

  lemma StartStep<P(!new)>(shown: Modal<P>, older: P, newer: P, k: nat)
    ensures Started(shown, older, newer, k + 1)
            == Step(Started(shown, older, newer, k), Start(if k == U64_MAX then newer else older))
  {
    var w, next := Started(shown, older, newer, k), Started(shown, older, newer, k + 1);
    assert next.tests == w.tests + [StartedTest(older, newer, k)];
  }

  // A run of 2^64 starts, after which the last two tests share an id: the older one's result comes in
  // while the dialog waits for the newer one, and is believed.
  lemma SaturatedIdsCollide<P(!new)>(shown: Modal<P>, older: P, newer: P, outcome: Outcome, waiting: Modal<P>)
    returns (es: seq<Event<P>>, ws: seq<World<P>>, n: nat)
    requires waiting.actionState == Busy(TestConnection)
    ensures IsRun(es, ws) && Consumes(es, ws, n, U64_MAX - 1)
    ensures |ws[n].tests| == U64_MAX + 1 && ws[n].client.modal == waiting
    ensures Lands(ws[n].client) && ws[n + 1].client.modal == Landed(waiting, older, outcome)
  {
    var k := U64_MAX + 1;
    var starts: seq<Event<P>> := seq(k, i requires 0 <= i < k => Start(if i == U64_MAX then newer else older));
    var worlds := seq(k + 1, i requires 0 <= i <= k => Started(shown, older, newer, i));
    var w := worlds[k];
    assert w.tests[U64_MAX - 1] == StartedTest(older, newer, U64_MAX - 1) == Test(U64_MAX, older, Running);
    var finish: Event<P> := Finish(U64_MAX - 1, outcome);
    var finished := Step(w, finish);
    var edited := Step(finished, Edit(waiting));
    var received := Step(edited, Receive);
    assert edited.client.inbox == [TestConnectionFinished(U64_MAX, older, outcome)];
    es, n := starts + [finish, Edit(waiting), Receive], k + 2;
    ws := worlds + [finished, edited, received];
    forall m: nat | m < |es| ensures Allowed(ws[m], es[m]) && ws[m + 1] == Step(ws[m], es[m]) {
      if m < k {
        StartStep(shown, older, newer, m);
      }
    }
    assert ws[n] == edited && es[n] == Receive;
  }

  // The worlds a drain passes through.
  ghost function Drain<P(!new)>(w: World<P>): (ws: seq<World<P>>)
    requires Inv(w)
    ensures |ws| == |w.senders| + 1 && ws[0] == w
    decreases |w.senders|
  {
    if w.senders == [] then [w]
    else
      StepKeepsInv(w, Receive);
      [w] + Drain(Step(w, Receive))
  }

  // A drain is the receiving step repeated until the channel is empty.
  lemma {:induction false} DrainIsRepeatedReceive<P(!new)>(w: World<P>, k: nat)
    requires Inv(w) && k < |w.senders|
    ensures Allowed(Drain(w)[k], Receive) && Drain(w)[k + 1] == Step(Drain(w)[k], Receive)
    ensures Drain(w)[|w.senders|].client == Drained(w.client).0
    decreases |w.senders|
  {
    StepKeepsInv(w, Receive);
    var next := Step(w, Receive);
    assert Drain(w) == [w] + Drain(next);
    if next.senders != [] {
      DrainIsRepeatedReceive(next, if k > 0 then k - 1 else 0);
    } else {
      assert Drained(next.client) == (next.client, false);
    }
  }

  ghost predicate LandsAt<P(!new)>(w: World<P>, k: nat)
    requires Inv(w)
  {
    k < |w.senders| && Lands(Drain(w)[k].client)
  }

  // It reports a change exactly when some result landed on the way.
  lemma {:induction false} DrainReportsLandings<P(!new)>(w: World<P>)
    requires Inv(w)
    ensures Drained(w.client).1 <==> exists k: nat :: LandsAt(w, k)
    decreases |w.senders|
  {
    if w.senders == [] {
      assert w.client.inbox == [];
    } else {
      StepKeepsInv(w, Receive);
      var next := Step(w, Receive);
      assert Drain(w) == [w] + Drain(next);
      DrainReportsLandings(next);
      assert LandsAt(w, 0) == Lands(w.client);
      forall k: nat | k > 0 ensures LandsAt(w, k) == LandsAt(next, k - 1) {
      }
      if k: nat :| LandsAt(next, k) {
        assert LandsAt(w, k + 1);
      }
    }
  }
}
