/**
 What the steps of the admin handlers do to the exams and the idempotency keys, told by id and
 key: which exam each step makes, changes or removes, and what a repeated request is answered.
 */
module ExamEffects {
  import opened ExamStore
  import opened ExamProtocol
  import opened Wrappers

  lemma IdsAreDistinct(s: System)
    requires TokenInv(s)
    ensures DistinctIds(s.store.exams)
  {
  }

  /** The exams after a step, by the place the handler has reached. */
  function ExamsAfter(s: System, a: Action): seq<Exam>
    requires Enabled(s, a)
  {
    var exams := s.store.exams;
    if !a.Proceed? then exams else
    match s.threads[a.tid]
    case CreateNumbered(_, token, id) => exams + [Exam(id, token, token)]
    case SwapClaimed(id, token) => WithToken(exams, id, token)
    case DeleteFound(id) => Others(exams, id)
    case _ => exams
  }

  lemma AddStepAdds(s: System, tid: nat)
    requires TokenInv(s) && tid in s.threads && s.threads[tid].CreateNumbered?
    ensures Next(s, Proceed(tid)).store.exams == ExamsAfter(s, Proceed(tid))
  {
    AddSucceeds(s, tid);
  }

  lemma SwapStepSwaps(s: System, tid: nat)
    requires DistinctIds(s.store.exams) && tid in s.threads && s.threads[tid].SwapClaimed?
    ensures Next(s, Proceed(tid)).store.exams == ExamsAfter(s, Proceed(tid))
  {
    var SwapClaimed(id, token) := s.threads[tid];
    RetokenedSwaps(s.store, id, token);
    if !HasId(s.store.exams, id) {
      NoneToSwap(s.store.exams, id, token);
    }
  }

  lemma {:induction false} NoneToSwap(exams: seq<Exam>, id: int, token: Token)
    requires !HasId(exams, id)
    ensures WithToken(exams, id, token) == exams
  {
    if exams != [] {
      assert exams[0] in exams && forall e :: e in exams[1..] ==> e in exams;
      NoneToSwap(exams[1..], id, token);
    }
  }

  lemma DeleteStepRemoves(s: System, tid: nat)
    requires DistinctIds(s.store.exams) && tid in s.threads && s.threads[tid].DeleteFound?
    ensures Next(s, Proceed(tid)).store.exams == ExamsAfter(s, Proceed(tid))
    ensures Next(s, Proceed(tid)).store.seen == s.store.seen - TokensOf(s.store.exams, s.threads[tid].id)
  {
    RemovedTakesOut(s.store, s.threads[tid].id);
  }

  lemma OtherStepsLeaveExams(s: System, a: Action)
    requires Enabled(s, a)
    requires a.Proceed? ==> !s.threads[a.tid].CreateNumbered? && !s.threads[a.tid].SwapClaimed? && !s.threads[a.tid].DeleteFound?
    ensures Next(s, a).store.exams == s.store.exams
  {
  }

  /** Each step makes one exam, gives one its new token, removes one, or leaves all exams as
      they are; it is always the exam whose id the handler carries. */
  lemma StepTouchesOneExam(s: System, a: Action)
    requires Reachable(s) && Enabled(s, a)
    ensures Next(s, a).store.exams == ExamsAfter(s, a)
  {
    ReachableIsSafe(s);
    SafeStepTouchesOne(s, a);
  }

  lemma SafeStepTouchesOne(s: System, a: Action)
    requires TokenInv(s) && Enabled(s, a)
    ensures Next(s, a).store.exams == ExamsAfter(s, a)
  {
    if a.Proceed? && s.threads[a.tid].CreateNumbered? { AddStepAdds(s, a.tid); }
    else if a.Proceed? && s.threads[a.tid].SwapClaimed? { IdsAreDistinct(s); SwapStepSwaps(s, a.tid); }
    else if a.Proceed? && s.threads[a.tid].DeleteFound? { IdsAreDistinct(s); DeleteStepRemoves(s, a.tid); }
    else { OtherStepsLeaveExams(s, a); }
  }

  /** A delete releases the token of its exam, and no other. */
  lemma DeleteReleasesItsToken(s: System, tid: nat)
    requires Reachable(s) && tid in s.threads && s.threads[tid].DeleteFound?
    ensures var id := s.threads[tid].id;
            Next(s, Proceed(tid)).store.seen == s.store.seen - TokensOf(s.store.exams, id)
  {
    ReachableIsSafe(s);
    IdsAreDistinct(s);
    DeleteStepRemoves(s, tid);
  }

  /** The step removes the exam or gives it a new token. */
  predicate Touches(s: System, a: Action, id: int)
    requires Enabled(s, a)
  {
    a.Proceed? && ((s.threads[a.tid].DeleteFound? && s.threads[a.tid].id == id)
                   || (s.threads[a.tid].SwapClaimed? && s.threads[a.tid].id == id))
  }

  ghost predicate LeavesAlone(s: System, run: seq<Action>, id: int)
    requires CanRun(s, run)
    decreases |run|
  {
    run == [] || (!Touches(s, run[0], id) && LeavesAlone(Next(s, run[0]), run[1..], id))
  }

  lemma {:induction false} WithTokenKeeps(exams: seq<Exam>, id: int, token: Token, e: Exam)
    requires e in exams && e.id != id
    ensures e in WithToken(exams, id, token)
  {
    if e != exams[0] {
      assert e in exams[1..];
      WithTokenKeeps(exams[1..], id, token, e);
    }
  }

  lemma StepKeepsExam(s: System, a: Action, e: Exam)
    requires Enabled(s, a) && Next(s, a).store.exams == ExamsAfter(s, a)
    requires e in s.store.exams && !Touches(s, a, e.id)
    ensures e in Next(s, a).store.exams
  {
    if a.Proceed? && s.threads[a.tid].SwapClaimed? {
      WithTokenKeeps(s.store.exams, s.threads[a.tid].id, s.threads[a.tid].token, e);
    } else if a.Proceed? && s.threads[a.tid].DeleteFound? {
      OthersIn(s.store.exams, s.threads[a.tid].id, e);
    }
  }

  /** Over any run an exam stays as it is until a handler for its own id acts on it. */
  lemma {:induction false} ExamStays(s: System, run: seq<Action>, e: Exam)
    requires TokenInv(s) && KeyInv(s) && CanRun(s, run) && e in s.store.exams && LeavesAlone(s, run, e.id)
    ensures e in Run(s, run).store.exams
    decreases |run|
  {
    if run != [] {
      SafeStepTouchesOne(s, run[0]);
      StepKeepsExam(s, run[0], e);
      StepKeepsTokens(s, run[0]);
      StepKeepsKeys(s, run[0]);
      ExamStays(Next(s, run[0]), run[1..], e);
    }
  }

  // ---- Tokens -----------------------------------------------------------------

  /** No exam has the token, and no handler is about to give it to one or to release it. */
  ghost predicate IsFree(s: System, token: Token) {
    !HasToken(s.store.exams, token) && forall t :: !OwnsToken(s.threads, t, token)
  }

  /** A free token is got at the first try, and only a free one; then the handler owns it. */
  lemma FreeTokenIsClaimed(s: System, tid: nat, token: Token)
    requires Reachable(s) && Enabled(s, TryToken(tid, token))
    ensures OwnsToken(Next(s, TryToken(tid, token)).threads, tid, token) <==> IsFree(s, token)
    ensures var s' := Next(s, TryToken(tid, token)); s'.store.exams == s.store.exams
  {
    ReachableIsSafe(s);
    ClaimedIfFree(s, token);
    if s.threads[tid].EditStart? {
      EditClaimsIfFree(s, tid, token);
    }
  }

  lemma ClaimedIfFree(s: System, token: Token)
    requires TokenInv(s)
    ensures Claimed(s.store, token).1 <==> IsFree(s, token)
  {
  }

  lemma EditClaimsIfFree(s: System, tid: nat, token: Token)
    requires TokenInv(s) && Enabled(s, TryToken(tid, token)) && s.threads[tid].EditStart?
    ensures ClaimedIfAbsent(s.store, token, s.threads[tid].id).1 <==> IsFree(s, token)
  {
  }

  // ---- Repeated requests ------------------------------------------------------

  /** A request under a key: the first one goes on; one whose answer is final gets exactly that
      answer if it is the same request; any other is turned away. */
  lemma KeyDecides(s: System, tid: nat, custom: bool)
    requires Reachable(s) && tid in s.threads && s.threads[tid].CreateStart? && s.threads[tid].req.key.Some?
    ensures var s', req, key := Next(s, Reserve(tid, custom)), s.threads[tid].req, s.threads[tid].req.key.value;
            if key !in s.store.idem then
              s'.threads == s.threads[tid := CreateReserved(req, custom, 0)] && Pending(s'.store, key) && s'.replays == s.replays
            else
              && s'.threads == s.threads - {tid} && s'.store == s.store
              && s'.replays == s.replays + if key in s.finals && s.finals[key].fingerprint == req.fingerprint then
                   var f := s.finals[key]; [Answer(key, req.fingerprint, f.status, f.body, f.contentType)]
                 else []
  {
    ReachableIsSafe(s);
  }
}
