// Properties of whole runs of the paste controller: any events, in any order, of any length.
module ClipboardPasteRuns {
  import opened Common
  import opened ClipboardPaste
  import opened ClipboardPasteInvariants

  // ss[n] is the controller after the first n events of es.
  ghost predicate IsRun(es: seq<Event>, ss: seq<Paste>) {
    && |ss| == |es| + 1
    && ss[0] == INITIAL
    && forall n: nat {:trigger Moment(n)} :: n < |es| && Moment(n) ==> ss[n + 1] == Step(ss[n], es[n])
  }

  function States(es: seq<Event>): (ss: seq<Paste>)
    ensures |ss| == |es| + 1
  {
    if es == [] then [INITIAL]
    else
      var before := States(es[..|es| - 1]);
      before + [Step(before[|es| - 1], es[|es| - 1])]
  }

  lemma {:induction false} StatesAreARun(es: seq<Event>)
    ensures IsRun(es, States(es))
  {
    if es != [] {
      var n := |es| - 1;
      StatesAreARun(es[..n]);
      var before := States(es[..n]);
      forall k: nat | k < n && Moment(k) ensures before[k + 1] == Step(before[k], es[k]) {
        assert es[..n][k] == es[k];
      }
    }
  }

  lemma {:induction false} RunsAreUnique(es: seq<Event>, ss: seq<Paste>)
    requires IsRun(es, ss)
    ensures ss == States(es)
  {
    if es != [] {
      var n := |es| - 1;
      assert Moment(n);
      forall k: nat | k < n && Moment(k) ensures ss[k + 1] == Step(ss[k], es[..n][k]) {
      }
      RunsAreUnique(es[..n], ss[..n + 1]);
      assert ss == ss[..n + 1] + [ss[n + 1]];
    }
  }

  // Every sequence of events has exactly one run.
  lemma RunsExistAndAreUnique(es: seq<Event>, ss: seq<Paste>)
    ensures IsRun(es, ss) <==> ss == States(es)
  {
    StatesAreARun(es);
    if IsRun(es, ss) {
      RunsAreUnique(es, ss);
    }
  }

  predicate RegistersId(es: seq<Event>, i: nat, id: Uuid) {
    i < |es| && es[i].Register? && es[i].freshId == id
  }

  // Uuid::new_v4 never repeats.
  ghost predicate FreshIds(es: seq<Event>) {
    forall i, j :: 0 <= i < j < |es| && es[i].Register? && es[j].Register? ==> es[i].freshId != es[j].freshId
  }

  // When an id was offered for registration; -1 for an id that never was.
  ghost function RegisteredAt(es: seq<Event>, id: Uuid): (at: int)
    ensures at >= 0 ==> RegistersId(es, at, id)
    ensures at < 0 ==> forall i: nat :: !RegistersId(es, i, id)
  {
    if exists i: nat :: RegistersId(es, i, id) then (var i: nat :| RegistersId(es, i, id); i) else -1
  }

  lemma RegisteredAtIsUnique(es: seq<Event>, i: nat, id: Uuid)
    requires FreshIds(es) && RegistersId(es, i, id)
    ensures RegisteredAt(es, id) == i
  {
  }

  // ---------------------------------------------------------------- the invariant over runs

  ghost predicate QueueFollowsRegistration(es: seq<Event>, c: Paste, n: nat) {
    var rs := c.requests;
    && (forall k :: 0 <= k < |rs| ==> 0 <= RegisteredAt(es, rs[k].requestId) < n)
    && (forall j, k :: 0 <= j < k < |rs| ==>
                         RegisteredAt(es, rs[j].requestId) < RegisteredAt(es, rs[k].requestId))
    && (c.activeUploadId.Some? ==> 0 <= RegisteredAt(es, c.activeUploadId.value) < n)
  }

  lemma RegistrationIsFresh(es: seq<Event>, c: Paste, n: nat)
    requires FreshIds(es) && n < |es| && QueueFollowsRegistration(es, c, n)
    ensures Fresh(c, es[n])
  {
    if es[n].Register? {
      RegisteredAtIsUnique(es, n, es[n].freshId);
    }
  }

  lemma ActiveComesFromQueue(c: Paste, e: Event)
    requires Inv(c)
    ensures Step(c, e).activeUploadId.Some? && Step(c, e).activeUploadId != c.activeUploadId ==>
              exists k :: 0 <= k < |c.requests| && Step(c, e).activeUploadId == Some(c.requests[k].requestId)
  {
    if IsPointEvent(e) {
      PointEventIsPointStep(c, e);
    }
  }

  // The requests event n keeps or moves, and the one it adds, if any.
  lemma RunEvolves(es: seq<Event>, ss: seq<Paste>, n: nat) returns (idx: seq<nat>, added: seq<Request>)
    requires IsRun(es, ss) && n < |es| && Inv(ss[n])
    ensures EvolvesVia(ss[n].requests, ss[n + 1].requests, idx, added)
    ensures added != [] ==> es[n].Register? && added[0].requestId == es[n].freshId
                            && added[0].sessionId == es[n].sessionId && added[0].bindingId == es[n].bindingId
                            && added[0].capturedInputEpoch == EpochOf(ss[n].inputEpochs, es[n].sessionId)
    ensures added != [] ==> added[0].sessionId in ss[n + 1].inputEpochs
                            && ss[n + 1].inputEpochs[added[0].sessionId] == added[0].capturedInputEpoch
  {
    assert Moment(n);
    idx, added := StepEvolves(ss[n], es[n]);
  }

  lemma RunActive(es: seq<Event>, ss: seq<Paste>, n: nat)
    requires IsRun(es, ss) && n < |es| && Inv(ss[n])
    ensures ss[n + 1].activeUploadId.Some? && ss[n + 1].activeUploadId != ss[n].activeUploadId ==>
              exists k :: 0 <= k < |ss[n].requests| && ss[n + 1].activeUploadId == Some(ss[n].requests[k].requestId)
  {
    assert Moment(n);
    ActiveComesFromQueue(ss[n], es[n]);
  }

  lemma RunInv(es: seq<Event>, ss: seq<Paste>, n: nat)
    requires IsRun(es, ss) && n < |es| && Inv(ss[n]) && Fresh(ss[n], es[n])
    ensures Inv(ss[n + 1])
  {
    assert Moment(n);
    StepKeepsInv(ss[n], es[n]);
  }

  // Position by position: the first |idx| requests were there before, the last one may be new.
  lemma KeptThenAdded(es: seq<Event>, ss: seq<Paste>, n: nat) returns (idx: seq<nat>)
    requires FreshIds(es) && IsRun(es, ss) && n < |es| && Inv(ss[n]) && QueueFollowsRegistration(es, ss[n], n)
    ensures Embeds(idx, |ss[n].requests|) && |idx| <= |ss[n + 1].requests| <= |idx| + 1
    ensures forall k {:trigger ss[n + 1].requests[k]} :: 0 <= k < |idx| ==>
                          && Succeeds(ss[n].requests[idx[k]], ss[n + 1].requests[k])
                          && 0 <= RegisteredAt(es, ss[n + 1].requests[k].requestId) < n
    ensures |ss[n + 1].requests| == |idx| + 1 ==>
              var r := ss[n + 1].requests[|idx|];
              && RegistersId(es, n, r.requestId) && RegisteredAt(es, r.requestId) == n
              && r.sessionId == es[n].sessionId && r.bindingId == es[n].bindingId
              && r.sessionId in ss[n + 1].inputEpochs
              && ss[n + 1].inputEpochs[r.sessionId] == r.capturedInputEpoch
  {
    var added;
    idx, added := RunEvolves(es, ss, n);
    if |ss[n + 1].requests| == |idx| + 1 {
      assert ss[n + 1].requests[|idx|] == ss[n + 1].requests[|idx|..][0];
      RegisteredAtIsUnique(es, n, ss[n + 1].requests[|idx|].requestId);
    }
  }

  lemma OrderSurvivesStep(es: seq<Event>, ss: seq<Paste>, n: nat)
    requires FreshIds(es) && IsRun(es, ss) && n < |es| && Inv(ss[n]) && QueueFollowsRegistration(es, ss[n], n)
    ensures QueueFollowsRegistration(es, ss[n + 1], n + 1)
  {
    RunActive(es, ss, n);
    var idx := KeptThenAdded(es, ss, n);
  }

  lemma InitialKeepsOrder(es: seq<Event>)
    ensures Inv(INITIAL) && QueueFollowsRegistration(es, INITIAL, 0)
  {
  }

  // Every state of every run satisfies the invariant, and the queue keeps registration order.
  lemma {:induction false} RunsKeepInvariant(es: seq<Event>, ss: seq<Paste>, n: nat)
    requires FreshIds(es) && IsRun(es, ss) && n <= |es|
    ensures Inv(ss[n]) && QueueFollowsRegistration(es, ss[n], n)
  {
    if n == 0 {
      InitialKeepsOrder(es);
    } else {
      RunsKeepInvariant(es, ss, n - 1);
      RegistrationIsFresh(es, ss[n - 1], n - 1);
      RunInv(es, ss, n - 1);
      OrderSurvivesStep(es, ss, n - 1);
    }
  }

  // ---------------------------------------------------------------- uploads start in order

  // Once x has left the waiting line, everything still waiting was registered after x.
  ghost predicate WaitingAreLater(es: seq<Event>, c: Paste, x: Uuid) {
    forall k :: 0 <= k < |c.requests| && Waiting(c.requests[k].state) ==>
                  RegisteredAt(es, x) < RegisteredAt(es, c.requests[k].requestId)
  }

  lemma StartLeavesLaterWaiting(es: seq<Event>, c: Paste, n: nat)
    requires Inv(c) && QueueFollowsRegistration(es, c, n) && TakeNextUpload(c).1.Some?
    ensures 0 <= RegisteredAt(es, TakeNextUpload(c).1.value.requestId) < n
    ensures WaitingAreLater(es, TakeNextUpload(c).0, TakeNextUpload(c).1.value.requestId)
    ensures exists k :: 0 <= k < |c.requests| && Waiting(c.requests[k].state)
                        && c.requests[k].requestId == TakeNextUpload(c).1.value.requestId
  {
    ScanFindsOwner(c);
    var q := NextQueued(c.requests, 0).value;
    var next := TakeNextUpload(c).0;
    forall k | 0 <= k < |next.requests| && Waiting(next.requests[k].state)
      ensures RegisteredAt(es, c.requests[q].requestId) < RegisteredAt(es, next.requests[k].requestId)
    {
      assert k > q;
    }
  }

  lemma WaitingStaysLater(es: seq<Event>, ss: seq<Paste>, n: nat, x: Uuid)
    requires FreshIds(es) && IsRun(es, ss) && n < |es| && Inv(ss[n]) && QueueFollowsRegistration(es, ss[n], n)
    requires 0 <= RegisteredAt(es, x) < n && WaitingAreLater(es, ss[n], x)
    ensures WaitingAreLater(es, ss[n + 1], x)
  {
    var idx := KeptThenAdded(es, ss, n);
  }

  lemma {:induction false} WaitingStaysLaterAlong(es: seq<Event>, ss: seq<Paste>, a: nat, b: nat, x: Uuid)
    requires FreshIds(es) && IsRun(es, ss) && a <= b <= |es| && WaitingAreLater(es, ss[a], x)
    requires 0 <= RegisteredAt(es, x) < a
    ensures WaitingAreLater(es, ss[b], x)
    decreases b
  {
    if a < b {
      WaitingStaysLaterAlong(es, ss, a, b - 1, x);
      RunsKeepInvariant(es, ss, b - 1);
      WaitingStaysLater(es, ss, b - 1, x);
    }
  }

  // The id of the upload event n starts, if it starts one.
  function StartedId(c: Paste, e: Event): Option<Uuid> {
    var job := StartedJob(c, e);
    if job.Some? then Some(job.value.requestId) else None
  }

  lemma RunStart(es: seq<Event>, ss: seq<Paste>, n: nat)
    requires FreshIds(es) && IsRun(es, ss) && n < |es| && StartedId(ss[n], es[n]).Some?
    ensures 0 <= RegisteredAt(es, StartedId(ss[n], es[n]).value) < n
    ensures WaitingAreLater(es, ss[n + 1], StartedId(ss[n], es[n]).value)
    ensures exists k :: 0 <= k < |ss[n].requests| && Waiting(ss[n].requests[k].state)
                        && ss[n].requests[k].requestId == StartedId(ss[n], es[n]).value
    ensures ss[n].activeUploadId == None && ss[n + 1].activeUploadId == StartedId(ss[n], es[n])
  {
    assert Moment(n);
    RunsKeepInvariant(es, ss, n);
    StartLeavesLaterWaiting(es, ss[n], n);
  }

  // Over any run, uploads start in registration order; in particular no request starts twice.
  lemma UploadsStartInRegistrationOrder(es: seq<Event>, ss: seq<Paste>, a: nat, b: nat)
    requires FreshIds(es) && IsRun(es, ss) && a < b < |es|
    requires StartedId(ss[a], es[a]).Some? && StartedId(ss[b], es[b]).Some?
    ensures 0 <= RegisteredAt(es, StartedId(ss[a], es[a]).value)
              < RegisteredAt(es, StartedId(ss[b], es[b]).value) < b
  {
    RunStart(es, ss, a);
    WaitingStaysLaterAlong(es, ss, a + 1, b, StartedId(ss[a], es[a]).value);
    RunStart(es, ss, b);
  }

  // ---------------------------------------------------------------- one upload at a time

  lemma {:induction false} SlotHeldUntilReleased(es: seq<Event>, ss: seq<Paste>, a: nat, n: nat, id: Uuid)
    requires FreshIds(es) && IsRun(es, ss) && a <= n <= |es| && ss[a].activeUploadId == Some(id)
    requires forall k :: a <= k < n ==> !ReleasesSlot(es[k], id)
    ensures ss[n].activeUploadId == Some(id)
    decreases n
  {
    if a < n {
      SlotHeldUntilReleased(es, ss, a, n - 1, id);
      RunsKeepInvariant(es, ss, n - 1);
      assert Moment(n - 1);
      SlotStep(ss[n - 1], es[n - 1], id);
    }
  }

  // Between two upload starts the first upload was reported finished, failed or invalid: two
  // uploads never run at once. Removing the session does not count as a release.
  lemma UploadsNeverOverlap(es: seq<Event>, ss: seq<Paste>, a: nat, b: nat)
    requires FreshIds(es) && IsRun(es, ss) && a < b < |es|
    requires StartedId(ss[a], es[a]).Some? && StartedId(ss[b], es[b]).Some?
    ensures exists k :: a < k < b && ReleasesSlot(es[k], StartedId(ss[a], es[a]).value)
  {
    var id := StartedId(ss[a], es[a]).value;
    RunStart(es, ss, a);
    RunStart(es, ss, b);
    if forall k :: a < k < b ==> !ReleasesSlot(es[k], id) {
      SlotHeldUntilReleased(es, ss, a + 1, b, id);
    }
  }

  // ---------------------------------------------------------------- one request's life

  // What any number of events may do to a request.
  predicate Descends(before: Request, after: Request) {
    && after.requestId == before.requestId
    && after.sessionId == before.sessionId
    && after.bindingId == before.bindingId
    && after.capturedInputEpoch == before.capturedInputEpoch
    && (after.state == before.state || Rank(before.state) < Rank(after.state))
    && before.bytesTransferred <= after.bytesTransferred
    && (before.state != Preparing ==> after.bytesTotal == before.bytesTotal)
  }

  lemma OneStepBack(es: seq<Event>, ss: seq<Paste>, n: nat, k: nat) returns (j: nat)
    requires FreshIds(es) && IsRun(es, ss) && n < |es|
    requires k < |ss[n + 1].requests| && RegisteredAt(es, ss[n + 1].requests[k].requestId) < n
    ensures j < |ss[n].requests| && Succeeds(ss[n].requests[j], ss[n + 1].requests[k])
  {
    RunsKeepInvariant(es, ss, n);
    var idx := KeptThenAdded(es, ss, n);
    j := idx[k];
  }

  // A queued request was queued at every moment since its registration, its state has only moved up
  // the rank, its bytes have only grown and its identity is unchanged.
  lemma {:induction false} RequestsOnlyMoveUp(es: seq<Event>, ss: seq<Paste>, a: nat, b: nat, k: nat)
    returns (j: nat)
    requires FreshIds(es) && IsRun(es, ss) && a <= b <= |es|
    requires k < |ss[b].requests| && RegisteredAt(es, ss[b].requests[k].requestId) < a
    ensures j < |ss[a].requests| && Descends(ss[a].requests[j], ss[b].requests[k])
    decreases b
  {
    if a == b {
      j := k;
    } else {
      var before := OneStepBack(es, ss, b - 1, k);
      j := RequestsOnlyMoveUp(es, ss, a, b - 1, before);
    }
  }

  // ---------------------------------------------------------------- input epochs

  // Terminal inputs noted for a session by events lo <= k < hi.
  function Inputs(es: seq<Event>, lo: nat, hi: nat, sessionId: Uuid): nat
    requires lo <= hi <= |es|
    decreases hi
  {
    if lo == hi then 0
    else Inputs(es, lo, hi - 1, sessionId) + (if es[hi - 1] == NoteInput(sessionId) then 1 else 0)
  }

  lemma EpochStep(c: Paste, e: Event, s: Uuid)
    requires Inv(c) && s in c.inputEpochs && e != SessionRemoved(s)
    ensures s in Step(c, e).inputEpochs
    ensures Step(c, e).inputEpochs[s] == (c.inputEpochs[s] + (if e == NoteInput(s) then 1 else 0)) % U64_LIMIT
  {
    if IsPointEvent(e) {
      PointEventIsPointStep(c, e);
    }
  }

  lemma RunEpoch(es: seq<Event>, ss: seq<Paste>, n: nat, s: Uuid)
    requires IsRun(es, ss) && n < |es| && Inv(ss[n]) && s in ss[n].inputEpochs && es[n] != SessionRemoved(s)
    ensures s in ss[n + 1].inputEpochs
    ensures ss[n + 1].inputEpochs[s]
            == (ss[n].inputEpochs[s] + (if es[n] == NoteInput(s) then 1 else 0)) % U64_LIMIT
  {
    assert Moment(n);
    EpochStep(ss[n], es[n], s);
  }

  lemma WrapSum(a: nat, b: nat, m: nat)
    requires a < U64_LIMIT
    ensures ((a + b) % U64_LIMIT + m) % U64_LIMIT == (a + b + m) % U64_LIMIT
    ensures (a + b) % U64_LIMIT == a <==> b % U64_LIMIT == 0
  {
  }

  lemma NextResidue(a: nat)
    ensures (a + 1) % U64_LIMIT == (a % U64_LIMIT + 1) % U64_LIMIT != a % U64_LIMIT
  {
  }

  // A removed session keeps no request but a tombstone.
  lemma RemovedSessionLeavesTombstones(es: seq<Event>, ss: seq<Paste>, n: nat, k: nat)
    requires IsRun(es, ss) && n < |es| && Inv(ss[n]) && k < |ss[n + 1].requests|
    requires es[n] == SessionRemoved(ss[n + 1].requests[k].sessionId)
    ensures ss[n + 1].requests[k].state == Tombstone
  {
    assert Moment(n);
    var idx := RemovalEvolves(ss[n], es[n].sessionId);
  }

  ghost predicate EpochIs(es: seq<Event>, ss: seq<Paste>, i: nat, n: nat, r: Request)
    requires i < n <= |es| && |ss| == |es| + 1
  {
    && es[i].Register?
    && r.sessionId == es[i].sessionId && r.bindingId == es[i].bindingId
    && r.capturedInputEpoch < U64_LIMIT
    && r.sessionId in ss[n].inputEpochs
    && ss[n].inputEpochs[r.sessionId] == (r.capturedInputEpoch + Inputs(es, i + 1, n, r.sessionId)) % U64_LIMIT
  }

  lemma EpochCarries(es: seq<Event>, ss: seq<Paste>, i: nat, n: nat, before: Request, r: Request)
    requires IsRun(es, ss) && i < n < |es| && Inv(ss[n]) && EpochIs(es, ss, i, n, before)
    requires Succeeds(before, r) && es[n] != SessionRemoved(r.sessionId)
    ensures EpochIs(es, ss, i, n + 1, r)
  {
    RunEpoch(es, ss, n, r.sessionId);
    WrapSum(r.capturedInputEpoch, Inputs(es, i + 1, n, r.sessionId),
            if es[n] == NoteInput(r.sessionId) then 1 else 0);
  }

  lemma EpochNext(es: seq<Event>, ss: seq<Paste>, i: nat, n: nat, j: nat, k: nat)
    requires IsRun(es, ss) && i < n < |es| && Inv(ss[n]) && j < |ss[n].requests| && k < |ss[n + 1].requests|
    requires EpochIs(es, ss, i, n, ss[n].requests[j]) && Succeeds(ss[n].requests[j], ss[n + 1].requests[k])
    requires ss[n + 1].requests[k].state != Tombstone
    ensures EpochIs(es, ss, i, n + 1, ss[n + 1].requests[k])
  {
    if es[n] == SessionRemoved(ss[n + 1].requests[k].sessionId) {
      RemovedSessionLeavesTombstones(es, ss, n, k);
    } else {
      EpochCarries(es, ss, i, n, ss[n].requests[j], ss[n + 1].requests[k]);
    }
  }

  // While a request lives, its session's epoch is the captured one plus the inputs since, modulo 2^64.
  lemma {:induction false} EpochCountsInputs(es: seq<Event>, ss: seq<Paste>, i: nat, n: nat, k: nat)
    requires FreshIds(es) && IsRun(es, ss) && i < n <= |es| && k < |ss[n].requests|
    requires RegistersId(es, i, ss[n].requests[k].requestId) && ss[n].requests[k].state != Tombstone
    ensures EpochIs(es, ss, i, n, ss[n].requests[k])
    decreases n
  {
    var r := ss[n].requests[k];
    RunsKeepInvariant(es, ss, n - 1);
    RegisteredAtIsUnique(es, i, r.requestId);
    if n == i + 1 {
      RegistrationCapturesEpoch(es, ss, i, k);
    } else {
      var j := OneStepBack(es, ss, n - 1, k);
      EpochCountsInputs(es, ss, i, n - 1, j);
      EpochNext(es, ss, i, n - 1, j, k);
    }
  }

  lemma RegistrationIsLast(es: seq<Event>, ss: seq<Paste>, i: nat, k: nat)
    requires FreshIds(es) && IsRun(es, ss) && i < |es| && Inv(ss[i]) && QueueFollowsRegistration(es, ss[i], i)
    requires k < |ss[i + 1].requests| && RegistersId(es, i, ss[i + 1].requests[k].requestId)
    ensures var r := ss[i + 1].requests[k];
            && r.sessionId == es[i].sessionId && r.bindingId == es[i].bindingId
            && r.sessionId in ss[i + 1].inputEpochs
            && ss[i + 1].inputEpochs[r.sessionId] == r.capturedInputEpoch
  {
    var idx := KeptThenAdded(es, ss, i);
    RegisteredAtIsUnique(es, i, ss[i + 1].requests[k].requestId);
  }

  lemma RegistrationCapturesEpoch(es: seq<Event>, ss: seq<Paste>, i: nat, k: nat)
    requires FreshIds(es) && IsRun(es, ss) && i < |es| && Inv(ss[i]) && QueueFollowsRegistration(es, ss[i], i)
    requires k < |ss[i + 1].requests| && RegistersId(es, i, ss[i + 1].requests[k].requestId)
    ensures var r := ss[i + 1].requests[k];
            && r.sessionId == es[i].sessionId && r.bindingId == es[i].bindingId
            && r.sessionId in ss[i + 1].inputEpochs
            && ss[i + 1].inputEpochs[r.sessionId] == r.capturedInputEpoch < U64_LIMIT
  {
    RegistrationIsLast(es, ss, i, k);
    RunsKeepInvariant(es, ss, i + 1);
  }

  // ---------------------------------------------------------------- completions

  // The queue position of the upload an UploadSucceeded event completes, and where it goes.
  lemma CompletionFindsUpload(es: seq<Event>, ss: seq<Paste>, n: nat) returns (k: nat)
    requires FreshIds(es) && IsRun(es, ss) && n < |es| && CompletionOf(ss[n], es[n]) != Ignored
    ensures es[n].UploadSucceeded? && k < |ss[n].requests|
    ensures var r := ss[n].requests[k];
            && r.requestId == es[n].requestId && r.state == Uploading
            && (CompletionOf(ss[n], es[n]).AutoInsert? <==>
                EpochOf(ss[n].inputEpochs, r.sessionId) == r.capturedInputEpoch)
            && (CompletionOf(ss[n], es[n]).AutoInsert? ==>
                  CompletionOf(ss[n], es[n]).action
                  == PathAction(r.requestId, r.sessionId, r.bindingId, es[n].path))
  {
    k := Find(ss[n], es[n].requestId).value;
  }

  lemma CompletionAdvances(es: seq<Event>, ss: seq<Paste>, n: nat, j: nat)
    requires FreshIds(es) && IsRun(es, ss) && n < |es| && CompletionOf(ss[n], es[n]) != Ignored
    requires j < |ss[n + 1].requests| && ss[n + 1].requests[j].requestId == es[n].requestId
    ensures Rank(ss[n + 1].requests[j].state) == 3
  {
    assert Moment(n);
    RunsKeepInvariant(es, ss, n);
    var c := ss[n];
    var k := Find(c, es[n].requestId).value;
    assert ss[n + 1].requests == c.requests[k := ss[n + 1].requests[k]];
  }

  // A completed upload is inserted automatically exactly when no terminal input reached its session
  // since registration, counted modulo the 2^64 wrap of the epoch counter, and is stale otherwise.
  lemma CompletionMatchesInput(es: seq<Event>, ss: seq<Paste>, i: nat, j: nat)
    requires FreshIds(es) && IsRun(es, ss) && i < j < |es| && CompletionOf(ss[j], es[j]) != Ignored
    requires es[j].UploadSucceeded? && RegistersId(es, i, es[j].requestId)
    ensures CompletionOf(ss[j], es[j]).AutoInsert? <==> Inputs(es, i + 1, j, es[i].sessionId) % U64_LIMIT == 0
    ensures CompletionOf(ss[j], es[j]).AutoInsert? ==>
              CompletionOf(ss[j], es[j]).action
              == PathAction(es[i].freshId, es[i].sessionId, es[i].bindingId, es[j].path)
  {
    var k := CompletionFindsUpload(es, ss, j);
    EpochCountsInputs(es, ss, i, j, k);
    WrapSum(ss[j].requests[k].capturedInputEpoch, Inputs(es, i + 1, j, es[i].sessionId), 0);
  }

  lemma CompletedStaysCompleted(es: seq<Event>, ss: seq<Paste>, j: nat, k: nat, q: nat)
    requires FreshIds(es) && IsRun(es, ss) && j < k <= |es| && CompletionOf(ss[j], es[j]) != Ignored
    requires q < |ss[k].requests| && ss[k].requests[q].requestId == es[j].requestId
    ensures Rank(ss[k].requests[q].state) >= 3
  {
    RunsKeepInvariant(es, ss, j);
    var p := CompletionFindsUpload(es, ss, j);
    var m := RequestsOnlyMoveUp(es, ss, j + 1, k, q);
    CompletionAdvances(es, ss, j, m);
  }

  // Each request is completed (inserted or declared stale) at most once over its life.
  lemma CompletedAtMostOnce(es: seq<Event>, ss: seq<Paste>, j: nat, k: nat)
    requires FreshIds(es) && IsRun(es, ss) && j < k < |es|
    requires CompletionOf(ss[j], es[j]) != Ignored && CompletionOf(ss[k], es[k]) != Ignored
    ensures es[j].requestId != es[k].requestId
  {
    var p := CompletionFindsUpload(es, ss, j);
    var q := CompletionFindsUpload(es, ss, k);
    if es[j].requestId == es[k].requestId {
      CompletedStaysCompleted(es, ss, j, k, q);
    }
  }

  // A request whose session was removed is never completed.
  lemma RemovedSessionNeverCompletes(es: seq<Event>, ss: seq<Paste>, i: nat, k: nat, j: nat)
    requires FreshIds(es) && IsRun(es, ss) && i < k < j < |es|
    requires es[j].UploadSucceeded? && RegistersId(es, i, es[j].requestId)
    requires es[k] == SessionRemoved(es[i].sessionId)
    ensures CompletionOf(ss[j], es[j]) == Ignored
  {
    if CompletionOf(ss[j], es[j]) != Ignored {
      var q := CompletionFindsUpload(es, ss, j);
      EpochCountsInputs(es, ss, i, j, q);
      RegisteredAtIsUnique(es, i, es[j].requestId);
      var m := RequestsOnlyMoveUp(es, ss, k + 1, j, q);
      RunsKeepInvariant(es, ss, k);
      RemovedSessionLeavesTombstones(es, ss, k, m);
    }
  }

  // ---------------------------------------------------------------- the revision as a cache key

  // Revision bumps between the states lo and hi of a run.
  function Bumps(ss: seq<Paste>, lo: nat, hi: nat): nat
    requires lo <= hi < |ss|
    decreases hi
  {
    if lo == hi then 0
    else Bumps(ss, lo, hi - 1) + (if ss[hi].revision != ss[hi - 1].revision then 1 else 0)
  }

  lemma {:induction false} FullEmbeddingIsIdentity(idx: seq<nat>, n: nat)
    requires Embeds(idx, n) && |idx| == n
    ensures forall k :: 0 <= k < n ==> idx[k] == k
  {
    if n > 0 {
      assert forall k :: 0 <= k < n - 1 ==> idx[k] < idx[n - 1];
      assert idx[n - 1] == n - 1 by {
        EmbeddingsGrow(idx, n, n - 1);
      }
      FullEmbeddingIsIdentity(idx[..n - 1], n - 1);
    }
  }

  lemma {:induction false} EmbeddingsGrow(idx: seq<nat>, n: nat, k: nat)
    requires Embeds(idx, n) && k < |idx|
    ensures idx[k] >= k
  {
    if k > 0 {
      EmbeddingsGrow(idx, n, k - 1);
    }
  }

  lemma UntouchedSessionKeepsQueue(rs: seq<Request>, s: Uuid, active: Option<Uuid>)
    requires forall r :: r in rs ==> r.sessionId != s
    ensures WithoutSession(rs, s, active) == rs
  {
    FilterAll(rs, (r: Request) => SurvivesRemoval(r, s, active));
    assert forall k :: 0 <= k < |rs| ==> rs[k] in rs;
  }

  lemma UnexpiredKeepsQueue(c: Paste, now: nat)
    requires |ExpireSuccess(c, now).0.requests| == |c.requests|
    ensures ExpireSuccess(c, now).0.requests == c.requests
  {
    var idx := ExpireEvolves(c, now);
    FullEmbeddingIsIdentity(idx, |c.requests|);
  }

  // next either leaves c's queue alone or moves c's revision by one.
  predicate RevisionTracks(c: Paste, next: Paste) {
    || (next.revision == c.revision && next.requests == c.requests)
    || next.revision == (c.revision + 1) % U64_LIMIT
  }

  lemma PointStepTracks(c: Paste, e: Event, next: Paste)
    requires IsPointEvent(e) && PointStep(c, e, next)
    ensures RevisionTracks(c, next)
  {
  }

  lemma PointRevision(c: Paste, e: Event)
    requires Inv(c) && IsPointEvent(e)
    ensures RevisionTracks(c, Step(c, e))
  {
    PointEventIsPointStep(c, e);
    PointStepTracks(c, e, Step(c, e));
  }

  lemma RemovalRevision(c: Paste, s: Uuid)
    ensures RevisionTracks(c, RemoveSession(c, s).0)
  {
    if forall r :: r in c.requests ==> r.sessionId != s {
      UntouchedSessionKeepsQueue(c.requests, s, c.activeUploadId);
    }
  }

  lemma ExpireRevision(c: Paste, now: nat)
    ensures RevisionTracks(c, ExpireSuccess(c, now).0)
  {
    if |ExpireSuccess(c, now).0.requests| == |c.requests| {
      UnexpiredKeepsQueue(c, now);
    }
  }

  lemma RevisionStep(c: Paste, e: Event)
    requires Inv(c)
    ensures RevisionTracks(c, Step(c, e))
  {
    if IsPointEvent(e) {
      PointRevision(c, e);
    } else if e.Expire? {
      ExpireRevision(c, e.now);
    } else if e.SessionRemoved? {
      RemovalRevision(c, e.sessionId);
    }
  }

  lemma RunRevision(es: seq<Event>, ss: seq<Paste>, n: nat)
    requires IsRun(es, ss) && n < |es| && Inv(ss[n])
    ensures RevisionTracks(ss[n], ss[n + 1])
  {
    assert Moment(n);
    RevisionStep(ss[n], es[n]);
  }

  lemma NextBump(es: seq<Event>, ss: seq<Paste>, a: nat, n: nat)
    requires IsRun(es, ss) && a <= n < |es| && Inv(ss[n])
    ensures ss[n + 1].revision == (ss[n].revision + Bumps(ss, n, n + 1)) % U64_LIMIT
    ensures Bumps(ss, n, n + 1) <= 1
    ensures Bumps(ss, n, n + 1) == 0 ==> ss[n + 1].requests == ss[n].requests
    ensures Bumps(ss, a, n + 1) == Bumps(ss, a, n) + Bumps(ss, n, n + 1)
  {
    RunRevision(es, ss, n);
    NextResidue(ss[n].revision);
  }

  // The revision moved by the bumps from a to b, and the queue only if there were any.
  ghost predicate BumpsCounted(ss: seq<Paste>, a: nat, b: nat)
    requires a <= b < |ss|
  {
    && ss[b].revision == (ss[a].revision + Bumps(ss, a, b)) % U64_LIMIT
    && (Bumps(ss, a, b) == 0 ==> ss[b].requests == ss[a].requests)
    && Bumps(ss, a, b) <= b - a
  }

  lemma NextCounted(es: seq<Event>, ss: seq<Paste>, a: nat, n: nat)
    requires IsRun(es, ss) && a <= n < |es| && Inv(ss[n]) && BumpsCounted(ss, a, n)
    requires ss[a].revision < U64_LIMIT
    ensures BumpsCounted(ss, a, n + 1)
  {
    NextBump(es, ss, a, n);
    WrapSum(ss[a].revision, Bumps(ss, a, n), Bumps(ss, n, n + 1));
  }

  lemma {:induction false} RevisionCountsBumps(es: seq<Event>, ss: seq<Paste>, a: nat, b: nat)
    requires FreshIds(es) && IsRun(es, ss) && a <= b <= |es|
    ensures ss[b].revision == (ss[a].revision + Bumps(ss, a, b)) % U64_LIMIT
    ensures Bumps(ss, a, b) == 0 ==> ss[b].requests == ss[a].requests
    ensures Bumps(ss, a, b) <= b - a
    decreases b
  {
    RunsKeepInvariant(es, ss, a);
    if a < b {
      RevisionCountsBumps(es, ss, a, b - 1);
      RunsKeepInvariant(es, ss, b - 1);
      NextCounted(es, ss, a, b - 1);
    }
  }

  // The revision is a sound cache key: two moments fewer than 2^64 bumps apart with the same revision
  // show the same items for every session, whatever events lie between them.
  lemma RevisionIsSoundCacheKey(es: seq<Event>, ss: seq<Paste>, a: nat, b: nat, sessionId: Uuid)
    requires FreshIds(es) && IsRun(es, ss) && a <= b <= |es| && Bumps(ss, a, b) < U64_LIMIT
    requires ss[a].revision == ss[b].revision
    ensures Projections(ss[a], sessionId) == Projections(ss[b], sessionId)
  {
    RunsKeepInvariant(es, ss, a);
    RevisionCountsBumps(es, ss, a, b);
    WrapSum(ss[a].revision, Bumps(ss, a, b), 0);
  }

  // ---------------------------------------------------------------- the bound is exact

  // One visible registration, then idle cycles that only bump the revision.
  function WrapEvent(k: nat): Event {
    if k == 0 then Register(1, 1, 1, 1) else if k % 2 == 1 then NoteInput(0) else SessionRemoved(0)
  }

  const SHOWN: Request := NewRequest(INITIAL, 1, 1, 1, 1)

  function WrapState(n: nat): Paste {
    if n == 0 then INITIAL
    else Paste(if n % 2 == 1 then map[1 := 0] else map[1 := 0, 0 := 1], [SHOWN], None, (n + 1) / 2 % U64_LIMIT)
  }

  // The revision moves into the odd states and rests into the even ones.
  lemma WrapMoves(n: nat)
    ensures WrapState(n + 1).revision ==
            if n % 2 == 0 then (WrapState(n).revision + 1) % U64_LIMIT else WrapState(n).revision
    ensures WrapState(n + 1).revision != WrapState(n).revision <==> n % 2 == 0
  {
    var a := (n + 1) / 2;
    assert (n + 2) / 2 == if n % 2 == 0 then a + 1 else a;
    NextResidue(a);
    assert WrapState(n).revision == a % U64_LIMIT;
  }

  lemma WrapStep(n: nat)
    ensures WrapState(n + 1) == Step(WrapState(n), WrapEvent(n))
  {
    WrapMoves(n);
    if n == 0 {
      assert RetainedCount([]) == 0;
    } else if n % 2 == 1 {
      assert map[1 := 0][0 := 1] == map[1 := 0, 0 := 1];
    } else {
      UntouchedSessionKeepsQueue([SHOWN], 0, None);
      assert map[1 := 0, 0 := 1] - {0} == map[1 := 0];
    }
  }

  lemma {:induction false} WrapBumps(ss: seq<Paste>, n: nat)
    requires n < |ss| && forall k :: 0 <= k < |ss| ==> ss[k] == WrapState(k)
    ensures Bumps(ss, 0, n) == (n + 1) / 2
  {
    if n > 0 {
      WrapBumps(ss, n - 1);
      WrapMoves(n - 1);
    }
  }

  // After exactly 2^64 bumps the revision repeats while the queue shows something else, so the bound of
  // RevisionIsSoundCacheKey cannot be relaxed.
  lemma RevisionWrapHidesAChange() returns (es: seq<Event>, ss: seq<Paste>, b: nat)
    ensures FreshIds(es) && IsRun(es, ss) && b == |es|
    ensures Bumps(ss, 0, b) == U64_LIMIT && ss[0].revision == ss[b].revision
    ensures Projections(ss[0], 1) != Projections(ss[b], 1)
  {
    b := 2 * U64_LIMIT - 1;
    es := seq(b, k requires 0 <= k < b => WrapEvent(k));
    ss := seq(b + 1, k requires 0 <= k < b + 1 => WrapState(k));
    forall n: nat | n < b ensures ss[n + 1] == Step(ss[n], es[n]) {
      WrapStep(n);
    }
    WrapBumps(ss, b);
    OneItemIsShown(ss[b]);
  }

  lemma OneItemIsShown(c: Paste)
    requires c.requests == [SHOWN]
    ensures |Projections(c, 1)| == 1 && Projections(INITIAL, 1) == []
  {
    var shown := (r: Request) => IsProjected(r, 1);
    assert Filter([SHOWN], shown) == [SHOWN] + Filter([], shown);
  }
}
