// What one drain makes of the results it is given: what becomes of a finished upload, of paths whose
// connection is gone and of shown successes, and which upload starts (src/app/bootstrap/workspace_terminal.rs).
module ClipboardPasteOutcomes {
  import opened Common
  import opened ClipboardPaste
  import opened ClipboardPasteInvariants
  import opened ClipboardPasteDrain
  import opened ClipboardPasteApp
  import opened ClipboardPasteEffects
  import opened ClipboardPasteProgress

  // ---------------------------------------------------------------- a finished upload

  function Context(r: Request): BindingContext {
    BindingContext(r.requestId, r.sessionId, r.bindingId)
  }

  predicate Undisturbed(c: Paste, r: Request) {
    r.sessionId in c.inputEpochs && c.inputEpochs[r.sessionId] == r.capturedInputEpoch
  }

  // Where an uploading request goes when its success is reported.
  function AfterSuccess(c: Paste, r: Request, path: string, env: Env): Request {
    if !env.isCurrent(Context(r)) then
      AsFailed(r, "the originating terminal connection changed or closed before the upload completed")
    else if !Undisturbed(c, r) then AsUploaded(r, path, false)
    else AfterPasting(AsUploaded(r, path, true), env.paste(PathAction(r.requestId, r.sessionId, r.bindingId, path)), env.now)
  }

  // Only the request with this id moves in the queue.
  ghost predicate OnlyMoves(before: seq<Request>, next: seq<Request>, id: Uuid, after: Request) {
    && |next| == |before|
    && forall k :: 0 <= k < |before| ==> next[k] == if before[k].requestId == id then after else before[k]
  }

  lemma MovesTwice(a: seq<Request>, b: seq<Request>, c: seq<Request>, id: Uuid, mid: Request, after: Request)
    requires OnlyMoves(a, b, id, mid) && OnlyMoves(b, c, id, after) && mid.requestId == id
    ensures OnlyMoves(a, c, id, after)
  {
  }

  lemma MovedIsThere(c: Paste, next: Paste, r: Request, after: Request)
    requires r in c.requests && OnlyMoves(c.requests, next.requests, r.requestId, after)
    ensures after in next.requests
  {
    var k :| 0 <= k < |c.requests| && c.requests[k] == r;
    assert next.requests[k] == after;
  }

  lemma ContextIsActive(c: Paste, r: Request)
    requires Inv(c) && r in c.requests
    ensures ActiveUploadBindingContext(c, r.requestId) == if r.state == Uploading then Some(Context(r)) else None
  {
    var i := FoundAt(c, r);
    ActiveIsUploadingOrTombstone(c, r);
  }

  // How a paste that was tried ends for its request.
  function AfterPasting(r: Request, result: PasteResult, now: nat): Request {
    match result
    case Sent => AsInserted(r, now)
    case BindingLost =>
      AsFailed(r, "the originating terminal connection changed or closed before the upload completed")
    case SendError(error) => AsFailed(r, error)
  }

  lemma AwaitingFails(noted: Paste, r: Request, error: string, next: Paste)
    requires Inv(noted) && r in noted.requests && r.state == AwaitingInsert && noted.activeUploadId == None
    requires next == MarkConnectionInvalid(noted, r.requestId, error).0
    ensures OnlyMoves(noted.requests, next.requests, r.requestId, AsFailed(r, error))
    ensures next.inputEpochs == noted.inputEpochs && next.activeUploadId == None
  {
    ConnectionInvalidMeans(noted, r, error);
  }

  lemma AwaitingIsInserted(noted: Paste, r: Request, now: nat, next: Paste)
    requires Inv(noted) && r in noted.requests && r.state == AwaitingInsert && noted.activeUploadId == None
    requires next == MarkInserted(noted, r.requestId, now).0
    ensures OnlyMoves(noted.requests, next.requests, r.requestId, AsInserted(r, now))
    ensures next.inputEpochs == noted.inputEpochs && next.activeUploadId == None
  {
    InsertedMeans(noted, r, now);
  }

  lemma PastedMeans(c: Paste, r: Request, action: PathAction, env: Env, next: Paste)
    requires Inv(c) && r in c.requests && r.state == AwaitingInsert
    requires action.requestId == r.requestId && action.sessionId == r.sessionId && r.sessionId in c.inputEpochs
    requires next == AfterAutoInsert(c, action, env) && c.activeUploadId == None
    ensures OnlyMoves(c.requests, next.requests, r.requestId, AfterPasting(r, env.paste(action), env.now))
    ensures next.inputEpochs == c.inputEpochs[r.sessionId := (c.inputEpochs[r.sessionId] + 1) % U64_LIMIT]
    ensures next.activeUploadId == None
  {
    var noted := NoteTerminalInput(c, r.sessionId).0;
    NotedKeepsInv(c, r.sessionId, noted);
    match env.paste(action)
    case Sent => AwaitingIsInserted(noted, r, env.now, next);
    case BindingLost => AwaitingFails(noted, r, LOST_BEFORE, next);
    case SendError(error) => AwaitingFails(noted, r, error, next);
  }

  lemma NotedKeepsInv(c: Paste, s: Uuid, noted: Paste)
    requires Inv(c) && noted == NoteTerminalInput(c, s).0
    ensures Inv(noted)
  {
    StepKeepsInv(c, NoteInput(s));
  }

  // A reported success takes effect on an uploading request only. It frees the slot and moves that one request:
  // failed if the connection is gone, stale if its session had input, else as the paste goes; and the paste
  // counts as one input of the session.
  lemma UploadedMeans(c: Paste, r: Request, path: string, env: Env)
    requires Inv(c) && r in c.requests
    ensures var next := OnUploaded(c, r.requestId, path, env);
            if r.state != Uploading then next == c
            else
              && OnlyMoves(c.requests, next.requests, r.requestId, AfterSuccess(c, r, path, env))
              && next.activeUploadId == None
              && next.inputEpochs ==
                 if env.isCurrent(Context(r)) && Undisturbed(c, r)
                 then c.inputEpochs[r.sessionId := (c.inputEpochs[r.sessionId] + 1) % U64_LIMIT] else c.inputEpochs
  {
    ContextIsActive(c, r);
    if r.state == Uploading {
      ActiveIsUploadingOrTombstone(c, r);
      if !env.isCurrent(Context(r)) {
        ConnectionInvalidMeans(c, r, LOST_BEFORE);
      } else {
        CurrentUploadedMeans(c, r, path, env);
      }
    }
  }

  lemma CurrentUploadedMeans(c: Paste, r: Request, path: string, env: Env)
    requires Inv(c) && r in c.requests && r.state == Uploading && env.isCurrent(Context(r))
    ensures var next := OnUploaded(c, r.requestId, path, env);
            && OnlyMoves(c.requests, next.requests, r.requestId, AfterSuccess(c, r, path, env))
            && next.activeUploadId == None
            && next.inputEpochs ==
               if Undisturbed(c, r)
               then c.inputEpochs[r.sessionId := (c.inputEpochs[r.sessionId] + 1) % U64_LIMIT] else c.inputEpochs
  {
    var done := MarkUploadSucceeded(c, r.requestId, path).0;
    var next := OnUploaded(c, r.requestId, path, env);
    SuccessSplits(c, r, path, env);
    SuccessRecorded(c, r, path, done);
    if Undisturbed(c, r) {
      PastedAfterSuccess(c, done, r, path, env, next);
    }
  }

  // A success over a current connection is recorded first, and then pasted if no input came between.
  lemma SuccessSplits(c: Paste, r: Request, path: string, env: Env)
    requires Inv(c) && r in c.requests && r.state == Uploading && env.isCurrent(Context(r))
    ensures var done := MarkUploadSucceeded(c, r.requestId, path).0;
            OnUploaded(c, r.requestId, path, env) ==
            if Undisturbed(c, r)
            then AfterAutoInsert(done, PathAction(r.requestId, r.sessionId, r.bindingId, path), env) else done
  {
    ContextIsActive(c, r);
    SucceededMeans(c, r, path);
  }

  lemma SuccessRecorded(c: Paste, r: Request, path: string, done: Paste)
    requires Inv(c) && r in c.requests && r.state == Uploading && done == MarkUploadSucceeded(c, r.requestId, path).0
    ensures Inv(done) && OnlyMoves(c.requests, done.requests, r.requestId, AsUploaded(r, path, Undisturbed(c, r)))
    ensures done.activeUploadId == None && done.inputEpochs == c.inputEpochs
  {
    ActiveIsUploadingOrTombstone(c, r);
    SucceededMeans(c, r, path);
    SuccessKeepsInv(c, r.requestId, path, done);
  }

  lemma PastedAfterSuccess(c: Paste, done: Paste, r: Request, path: string, env: Env, next: Paste)
    requires r in c.requests && Undisturbed(c, r) && Inv(done) && done.activeUploadId == None
    requires OnlyMoves(c.requests, done.requests, r.requestId, AsUploaded(r, path, true))
    requires done.inputEpochs == c.inputEpochs && env.isCurrent(Context(r))
    requires next == AfterAutoInsert(done, PathAction(r.requestId, r.sessionId, r.bindingId, path), env)
    ensures OnlyMoves(c.requests, next.requests, r.requestId, AfterSuccess(c, r, path, env))
    ensures next.activeUploadId == None
    ensures next.inputEpochs == c.inputEpochs[r.sessionId := (c.inputEpochs[r.sessionId] + 1) % U64_LIMIT]
  {
    var mid := AsUploaded(r, path, true);
    MovedIsThere(c, done, r, mid);
    PastedMeans(done, mid, PathAction(r.requestId, r.sessionId, r.bindingId, path), env, next);
    MovesTwice(c.requests, done.requests, next.requests, r.requestId, mid, AfterSuccess(c, r, path, env));
  }

  // ---------------------------------------------------------------- paths whose connection is gone

  predicate Loses(r: Request, closing: Closing) {
    r.state == Stale && !closing.isCurrent(Context(r))
  }

  function AfterLoss(r: Request): Request {
    AsFailed(r, "the originating terminal connection changed after the image upload completed")
  }

  // Exactly the stale requests whose connection is gone have failed.
  ghost predicate Swept(c: Paste, next: Paste, closing: Closing) {
    && |next.requests| == |c.requests| && next.activeUploadId == c.activeUploadId && next.inputEpochs == c.inputEpochs
    && forall k :: 0 <= k < |c.requests| ==>
         next.requests[k] == if Loses(c.requests[k], closing) then AfterLoss(c.requests[k]) else c.requests[k]
  }

  // The same for those of the stale requests that are among the first n contexts.
  ghost predicate SweptSome(c: Paste, next: Paste, contexts: seq<BindingContext>, closing: Closing) {
    && |next.requests| == |c.requests| && next.activeUploadId == c.activeUploadId && next.inputEpochs == c.inputEpochs
    && forall k :: 0 <= k < |c.requests| ==>
         next.requests[k] == if Loses(c.requests[k], closing) && Context(c.requests[k]) in contexts
                             then AfterLoss(c.requests[k]) else c.requests[k]
  }

  ghost predicate NamesStale(c: Paste, context: BindingContext) {
    exists r :: r in c.requests && r.state == Stale && Context(r) == context
  }

  lemma SweepSnoc(c: Paste, front: seq<BindingContext>, last: BindingContext, closing: Closing)
    ensures var before := InvalidateLost(c, front, closing);
            InvalidateLost(c, front + [last], closing) ==
            if closing.isCurrent(last) then before else MarkConnectionInvalid(before, last.requestId, LOST_AFTER).0
  {
    assert (front + [last])[..|front|] == front;
  }

  ghost predicate SweepsRight(c: Paste, contexts: seq<BindingContext>, closing: Closing) {
    SweptSome(c, InvalidateLost(c, contexts, closing), contexts, closing)
  }

  lemma SweepNone(c: Paste, closing: Closing)
    ensures SweepsRight(c, [], closing)
  {
  }

  lemma SweepNext(c: Paste, front: seq<BindingContext>, last: BindingContext, closing: Closing)
    requires Calm(c) && NamesStale(c, last) && SweepsRight(c, front, closing)
    ensures SweepsRight(c, front + [last], closing)
  {
    var r :| r in c.requests && r.state == Stale && Context(r) == last;
    SweepKeepsCalm(c, front, closing);
    SweepSnoc(c, front, last, closing);
    SweepOne(c, InvalidateLost(c, front, closing), InvalidateLost(c, front + [last], closing), front, r, closing);
  }

  lemma {:induction false} SweepMeans(c: Paste, contexts: seq<BindingContext>, closing: Closing)
    requires Calm(c) && forall k :: 0 <= k < |contexts| ==> NamesStale(c, contexts[k])
    ensures SweepsRight(c, contexts, closing)
  {
    if contexts == [] {
      SweepNone(c, closing);
    } else {
      var front, last := contexts[..|contexts| - 1], contexts[|contexts| - 1];
      SweepMeans(c, front, closing);
      SweepNext(c, front, last, closing);
      assert contexts == front + [last];
    }
  }

  lemma SweepOne(c: Paste, before: Paste, next: Paste, front: seq<BindingContext>, r: Request, closing: Closing)
    requires Inv(c) && Inv(before) && r in c.requests && r.state == Stale && SweptSome(c, before, front, closing)
    requires next == if closing.isCurrent(Context(r)) then before
                     else MarkConnectionInvalid(before, r.requestId, LOST_AFTER).0
    ensures SweptSome(c, next, front + [Context(r)], closing)
  {
    var i := FoundAt(c, r);
    if !closing.isCurrent(Context(r)) {
      FailsWhereItStands(before, i, r.requestId, next);
      forall k | 0 <= k < |c.requests| && k != i ensures next.requests[k] == before.requests[k] {
        assert before.requests[k].requestId == c.requests[k].requestId != r.requestId;
      }
    }
    forall k | 0 <= k < |c.requests| && k != i
      ensures Context(c.requests[k]) in front + [Context(r)] <==> Context(c.requests[k]) in front
    {
      assert c.requests[k].requestId != r.requestId;
    }
  }

  lemma FailsWhereItStands(c: Paste, i: nat, id: Uuid, next: Paste)
    requires Inv(c) && i < |c.requests| && c.requests[i].requestId == id && c.requests[i].state in {Stale, Error}
    requires next == MarkConnectionInvalid(c, id, LOST_AFTER).0
    ensures |next.requests| == |c.requests| && next.activeUploadId == c.activeUploadId && next.inputEpochs == c.inputEpochs
    ensures next.requests[i] == if c.requests[i].state == Stale then AfterLoss(c.requests[i]) else c.requests[i]
    ensures forall k :: 0 <= k < |c.requests| && c.requests[k].requestId != id ==> next.requests[k] == c.requests[k]
  {
    var r := c.requests[i];
    assert r in c.requests;
    ConnectionInvalidMeans(c, r, LOST_AFTER);
    ActiveIsUploadingOrTombstone(c, r);
  }

  lemma StaleContextsNameAll(c: Paste)
    ensures forall k :: 0 <= k < |StaleContexts(c.requests)| ==> NamesStale(c, StaleContexts(c.requests)[k])
    ensures forall r :: r in c.requests && r.state == Stale ==> Context(r) in StaleContexts(c.requests)
  {
    var contexts := StaleContexts(c.requests);
    forall k | 0 <= k < |contexts| ensures NamesStale(c, contexts[k]) {
      var r := StaleContextsAreStale(c.requests, k);
    }
    forall r | r in c.requests && r.state == Stale ensures Context(r) in contexts {
      var i :| 0 <= i < |c.requests| && c.requests[i] == r;
      FilterHas(c.requests, IsStale, i);
      var k :| 0 <= k < |contexts| && Filter(c.requests, IsStale)[k] == r;
      assert contexts[k] == Context(r);
    }
  }

  lemma AllSwept(c: Paste, closing: Closing)
    requires Calm(c)
    ensures Swept(c, InvalidateLost(c, StaleContexts(c.requests), closing), closing)
  {
    StaleContextsNameAll(c);
    SweepMeans(c, StaleContexts(c.requests), closing);
  }

  // ---------------------------------------------------------------- the end of a drain

  // What follows the feeding of the results: the stale requests whose connection is gone fail, and the
  // successes that are due go.
  ghost predicate Closes(fed: Paste, swept: Paste, expired: Paste, closing: Closing) {
    && Swept(fed, swept, closing)
    && expired.requests == Filter(swept.requests, NotDue(closing.now))
    && expired == swept.(requests := expired.requests, revision := expired.revision)
  }

  // Then the slot, when free, goes to the request that only finished ones precede.
  ghost predicate GoesToNext(expired: Paste, next: Paste, job: Option<UploadJob>) {
    if expired.activeUploadId == None && exists i :: IsNext(expired, i) then
      exists i :: IsNext(expired, i) && Meets(expired, TakeNext, expired.requests[i], next)
                  && IsJobOf(job, expired.requests[i])
    else next == expired && job == None
  }

  lemma DrainEnds(c: Paste, ms: seq<Delivery>, closing: Closing) returns (swept: Paste, expired: Paste)
    requires Calm(c)
    ensures Closes(OnMessages(c, ms), swept, expired, closing)
    ensures GoesToNext(expired, Drained(c, ms, closing).0, Drained(c, ms, closing).1)
  {
    var fed := OnMessages(c, ms);
    MessagesKeepCalm(c, ms);
    AllSwept(fed, closing);
    swept := InvalidateLost(fed, StaleContexts(fed.requests), closing);
    ExpireMeans(swept, closing.now);
    expired := BeforeTake(c, ms, closing);
    BeforeTakeIsCalm(c, ms, closing);
    DrainIsTake(c, ms, closing);
    TakeNextMeans(expired);
  }

  lemma NextIsUnique(c: Paste, i: int, j: int)
    requires IsNext(c, i) && IsNext(c, j)
    ensures i == j
  {
  }

  lemma NextSurvivesSweep(c: Paste, next: Paste, q: nat, closing: Closing)
    requires IsNext(c, q) && Swept(c, next, closing)
    ensures IsNext(next, q) && next.requests[q] == c.requests[q]
  {
  }

  lemma NextSurvivesExpiry(c: Paste, next: Paste, q: nat, now: nat) returns (k: nat)
    requires IsNext(c, q) && next.requests == Filter(c.requests, NotDue(now))
    ensures IsNext(next, k) && next.requests[k] == c.requests[q]
  {
    var idx := FilterPositions(c.requests, NotDue(now));
    assert NotDue(now)(c.requests[q]);
    k :| k < |idx| && idx[k] == q;
  }

  lemma NextIsTaken(expired: Paste, k: nat, next: Paste, job: Option<UploadJob>)
    requires GoesToNext(expired, next, job) && expired.activeUploadId == None && IsNext(expired, k)
    ensures IsJobOf(job, expired.requests[k]) && next.activeUploadId == Some(expired.requests[k].requestId)
    ensures AsUploading(expired.requests[k]) in next.requests
  {
    var i :| IsNext(expired, i) && Meets(expired, TakeNext, expired.requests[i], next) && IsJobOf(job, expired.requests[i]);
    NextIsUnique(expired, i, k);
    assert next.requests[k] == AsUploading(expired.requests[k]);
  }

  // If feeding the results leaves the slot free and a queued request with only finished ones ahead, that
  // request's upload starts in this very drain.
  lemma NextStartsInDrain(c: Paste, ms: seq<Delivery>, closing: Closing, q: nat)
    requires Calm(c) && OnMessages(c, ms).activeUploadId == None && IsNext(OnMessages(c, ms), q)
    ensures var r, (next, job) := OnMessages(c, ms).requests[q], Drained(c, ms, closing);
            && IsJobOf(job, r) && next.activeUploadId == Some(r.requestId) && AsUploading(r) in next.requests
  {
    var swept, expired := DrainEnds(c, ms, closing);
    NextSurvivesSweep(OnMessages(c, ms), swept, q, closing);
    var k := NextSurvivesExpiry(swept, expired, q, closing.now);
    NextIsTaken(expired, k, Drained(c, ms, closing).0, Drained(c, ms, closing).1);
  }

  // A failed preparation at the head of the queue unblocks it: the first queued request behind it starts in
  // the same drain.
  lemma FailedHeadLetsNextStart(c: Paste, i: nat, q: nat, error: string, env: Env, closing: Closing)
    requires Calm(c) && c.activeUploadId == None
    requires i < q < |c.requests| && c.requests[i].state == Preparing && c.requests[q].state == Queued
    requires forall j :: 0 <= j < q && j != i ==> Finished(c.requests[j].state)
    ensures var ms := [Delivery(PreparedErr(c.requests[i].requestId, error), env)];
            var (next, job) := Drained(c, ms, closing);
            && IsJobOf(job, c.requests[q]) && next.activeUploadId == Some(c.requests[q].requestId)
            && AsUploading(c.requests[q]) in next.requests && AsFailed(c.requests[i], error) in OnMessages(c, ms).requests
  {
    var ms := [Delivery(PreparedErr(c.requests[i].requestId, error), env)];
    OnMessagesSnoc(c, [], ms[0]);
    assert ms == [] + [ms[0]];
    var head := c.requests[i];
    assert head in c.requests;
    PreparationFailedMeans(c, head, error);
    var fed := OnMessages(c, ms);
    assert fed.requests[i] == AsFailed(head, error);
    forall j | 0 <= j <= q && j != i ensures fed.requests[j] == c.requests[j] {
      assert c.requests[j].requestId != head.requestId;
    }
    NextStartsInDrain(c, ms, closing, q);
  }
}
