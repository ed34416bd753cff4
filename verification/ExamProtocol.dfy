/**
 The admin handlers that share the exam store: create, edit-token, regenerate-token and
 delete, `src/handlers/admin/exams.cpp`, run by any number of threads. A thread is where
 its handler stands between two store calls; a step is one store call of one thread, with
 whatever the handler does before the next one.

 Request parsing, the upload and the random tokens are choices of the environment, carried
 by the action. The memory store is used; the 255-byte limit on the key and everything
 else decided before the first store call leaves no trace here.
 */
module ExamProtocol {
  import opened ExamStore
  import opened Wrappers

  const MAX_TRIES := 5

  /** What a create handler carries: its idempotency key, if the request had one, and the
      fingerprint of the request. */
  datatype Request = Request(key: Option<Key>, fingerprint: string)

  datatype Pc =
    | CreateStart(req: Request)
    | CreateReserved(req: Request, custom: bool, tries: nat)
    | CreateClaimed(req: Request, token: Token)
    | CreateNumbered(req: Request, token: Token, id: int)
    | CreateUndo(req: Request, token: Token)
    | CreateFail(req: Request)
    | CreateAdded(req: Request, id: int)
    | EditStart(id: int)
    | RegenerateStart(id: int, tries: nat)
    | SwapClaimed(id: int, token: Token)
    | SwapUndo(token: Token)
    | SwapRelease(oldToken: Token)
    | DeleteStart(id: int)
    | DeleteFound(id: int)

  /** Handlers begin at one of these. */
  predicate IsStart(pc: Pc) {
    pc.CreateStart? || pc.EditStart? || (pc.RegenerateStart? && pc.tries == 0) || pc.DeleteStart?
  }

  datatype Action =
    | Begin(tid: nat, pc: Pc)
    | Reserve(tid: nat, custom: bool)
    | TryToken(tid: nat, token: Token)
    | Reject(tid: nat)
    | Proceed(tid: nat)
    | Finish(tid: nat, status: int, body: string, contentType: string)

  datatype Answer = Answer(key: Key, fingerprint: string, status: int, body: string, contentType: string)

  /** The store, the handlers in flight, and a record of what has happened: the exams made
      under a key, the responses finalized and replayed, and the keys a handler has left
      without finalizing (its protobuf response skips that). */
  datatype System = System(store: Store, threads: map<nat, Pc>, made: seq<(Key, int)>,
                           finals: map<Key, IdemEntry>, replays: seq<Answer>, abandoned: set<Key>)

  const INITIAL := System(EMPTY, map[], [], map[], [], {})

  /** Tokens are eight characters; only that they are not empty matters. */
  predicate IsToken(token: Token) {
    |token| == 8
  }

  // ---- The steps --------------------------------------------------------------

  predicate Enabled(s: System, a: Action) {
    match a
    case Begin(tid, pc) => tid !in s.threads && IsStart(pc)
    case Reserve(tid, _) => tid in s.threads && s.threads[tid].CreateStart?
    case TryToken(tid, token) =>
      && tid in s.threads && IsToken(token)
      && (s.threads[tid].CreateReserved? || s.threads[tid].EditStart? || s.threads[tid].RegenerateStart?)
    case Reject(tid) =>
      tid in s.threads && (s.threads[tid].CreateReserved? || s.threads[tid].CreateNumbered? || s.threads[tid].DeleteFound?)
    case Proceed(tid) =>
      && tid in s.threads
      && !s.threads[tid].CreateStart? && !s.threads[tid].CreateReserved? && !s.threads[tid].EditStart?
      && !s.threads[tid].RegenerateStart?
    case Finish(tid, _, _, _) => tid in s.threads && s.threads[tid].CreateAdded?
  }

  function Moved(s: System, tid: nat, pc: Pc): System {
    s.(threads := s.threads[tid := pc])
  }

  function Ended(s: System, tid: nat): System {
    s.(threads := s.threads - {tid})
  }

  /** The reservation at the head of `create_exam`; without a key there is none. */
  function AfterReserve(s: System, tid: nat, custom: bool): System
    requires tid in s.threads && s.threads[tid].CreateStart?
  {
    var req := s.threads[tid].req;
    if req.key == None then Moved(s, tid, CreateReserved(req, custom, 0))
    else
      var key := req.key.value;
      var (store, r) := Reserved(s.store, key, req.fingerprint);
      match r
      case New => Moved(s.(store := store), tid, CreateReserved(req, custom, 0))
      case Conflict => Ended(s, tid)
      case Replay(status, body, contentType) =>
        Ended(s.(replays := s.replays + [Answer(key, req.fingerprint, status, body, contentType)]), tid)
  }

  /** A try at claiming a token: the custom one, the edited one, or a generated one. */
  function AfterTryToken(s: System, tid: nat, token: Token): System
    requires tid in s.threads
    requires s.threads[tid].CreateReserved? || s.threads[tid].EditStart? || s.threads[tid].RegenerateStart?
  {
    match s.threads[tid]
    case CreateReserved(req, custom, tries) =>
      var (store, ok) := Claimed(s.store, token);
      if ok then Moved(s.(store := store), tid, CreateClaimed(req, token))
      else if custom || tries + 1 >= MAX_TRIES then Moved(s, tid, CreateFail(req))
      else Moved(s, tid, CreateReserved(req, custom, tries + 1))
    case EditStart(id) =>
      var (store, ok) := ClaimedIfAbsent(s.store, token, id);
      if ok then Moved(s.(store := store), tid, SwapClaimed(id, token)) else Ended(s, tid)
    case RegenerateStart(id, tries) =>
      var (store, ok) := Claimed(s.store, token);
      if ok then Moved(s.(store := store), tid, SwapClaimed(id, token))
      else if tries + 1 >= MAX_TRIES then Ended(s, tid)
      else Moved(s, tid, RegenerateStart(id, tries + 1))
  }

  /** A refused request: bad input, or an upload that failed after the claim. */
  function AfterReject(s: System, tid: nat): System
    requires tid in s.threads
    requires s.threads[tid].CreateReserved? || s.threads[tid].CreateNumbered? || s.threads[tid].DeleteFound?
  {
    match s.threads[tid]
    case CreateReserved(req, _, _) => Moved(s, tid, CreateFail(req))
    case CreateNumbered(req, token, _) => Moved(s, tid, CreateUndo(req, token))
    case DeleteFound(_) => Ended(s, tid)
  }

  function AfterCreateStep(s: System, tid: nat): System
    requires tid in s.threads && (s.threads[tid].CreateClaimed? || s.threads[tid].CreateNumbered?
                                  || s.threads[tid].CreateUndo? || s.threads[tid].CreateFail? || s.threads[tid].CreateAdded?)
  {
    match s.threads[tid]
    case CreateClaimed(req, token) =>
      Moved(s.(store := s.store.(nextId := s.store.nextId + 1)), tid, CreateNumbered(req, token, s.store.nextId))
    case CreateNumbered(req, token, id) =>
      var (store, ok) := Added(s.store, Exam(id, token, token));
      if ok then
        Moved(s.(store := store, made := if req.key == None then s.made else s.made + [(req.key.value, id)]),
              tid, CreateAdded(req, id))
      else Moved(s, tid, CreateUndo(req, token))
    case CreateUndo(req, token) => Moved(s.(store := Unclaimed(s.store, token)), tid, CreateFail(req))
    case CreateFail(req) =>
      Ended(if req.key == None then s else s.(store := Released(s.store, req.key.value)), tid)
    case CreateAdded(req, _) =>
      // The protobuf response returns without finalizing.
      Ended(if req.key == None then s else s.(abandoned := s.abandoned + {req.key.value}), tid)
  }

  function AfterSwapStep(s: System, tid: nat): System
    requires tid in s.threads && (s.threads[tid].SwapClaimed? || s.threads[tid].SwapUndo? || s.threads[tid].SwapRelease?
                                  || s.threads[tid].DeleteStart? || s.threads[tid].DeleteFound?)
  {
    match s.threads[tid]
    case SwapClaimed(id, token) =>
      var (store, oldToken) := Retokened(s.store, id, token);
      if oldToken == None then Moved(s, tid, SwapUndo(token))
      else if oldToken.value == "" then Ended(s.(store := store), tid)
      else Moved(s.(store := store), tid, SwapRelease(oldToken.value))
    case SwapUndo(token) => Ended(s.(store := Unclaimed(s.store, token)), tid)
    case SwapRelease(oldToken) => Ended(s.(store := Unclaimed(s.store, oldToken)), tid)
    case DeleteStart(id) =>
      if IndexOf(s.store.exams, id) == |s.store.exams| then Ended(s, tid) else Moved(s, tid, DeleteFound(id))
    case DeleteFound(id) => Ended(s.(store := Removed(s.store, id).0), tid)
  }

  function AfterFinish(s: System, tid: nat, status: int, body: string, contentType: string): System
    requires tid in s.threads && s.threads[tid].CreateAdded?
  {
    var req := s.threads[tid].req;
    if req.key == None then Ended(s, tid)
    else
      var key := req.key.value;
      Ended(s.(store := Finalized(s.store, key, req.fingerprint, status, body, contentType),
               finals := s.finals[key := IdemEntry(req.fingerprint, true, status, body, contentType)]), tid)
  }

  function Next(s: System, a: Action): System
    requires Enabled(s, a)
  {
    match a
    case Begin(tid, pc) => Moved(s, tid, pc)
    case Reserve(tid, custom) => AfterReserve(s, tid, custom)
    case TryToken(tid, token) => AfterTryToken(s, tid, token)
    case Reject(tid) => AfterReject(s, tid)
    case Proceed(tid) =>
      var pc := s.threads[tid];
      if pc.CreateClaimed? || pc.CreateNumbered? || pc.CreateUndo? || pc.CreateFail? || pc.CreateAdded?
      then AfterCreateStep(s, tid) else AfterSwapStep(s, tid)
    case Finish(tid, status, body, contentType) => AfterFinish(s, tid, status, body, contentType)
  }

  /** The states a run from the start can reach. */
  ghost predicate CanRun(s: System, run: seq<Action>)
    decreases |run|
  {
    run == [] || (Enabled(s, run[0]) && CanRun(Next(s, run[0]), run[1..]))
  }

  ghost function Run(s: System, run: seq<Action>): System
    requires CanRun(s, run)
    decreases |run|
  {
    if run == [] then s else Run(Next(s, run[0]), run[1..])
  }

  // ---- Tokens -----------------------------------------------------------------

  /** The token a handler is responsible for: one it has claimed and not yet given to an
      exam, or one it has taken off an exam and not yet given back. */
  function Owned(pc: Pc): Option<Token> {
    match pc
    case CreateClaimed(_, token) => Some(token)
    case CreateNumbered(_, token, _) => Some(token)
    case CreateUndo(_, token) => Some(token)
    case SwapClaimed(_, token) => Some(token)
    case SwapUndo(token) => Some(token)
    case SwapRelease(oldToken) => Some(oldToken)
    case _ => None
  }

  predicate OwnsToken(threads: map<nat, Pc>, t: nat, token: Token) {
    t in threads && Owned(threads[t]) == Some(token)
  }

  ghost predicate ExamsOk(exams: seq<Exam>, nextId: int) {
    && (forall i :: 0 <= i < |exams| ==> exams[i].id < nextId && exams[i].activeToken == exams[i].token && IsToken(exams[i].token))
    && (forall i, j :: 0 <= i < j < |exams| ==> exams[i].id != exams[j].id && exams[i].token != exams[j].token)
  }

  ghost predicate NumbersOk(s: System) {
    && (forall t :: t in s.threads && s.threads[t].CreateNumbered? ==>
          s.threads[t].id < s.store.nextId && forall i :: 0 <= i < |s.store.exams| ==> s.store.exams[i].id != s.threads[t].id)
    && (forall t, u :: t in s.threads && u in s.threads && t != u && s.threads[t].CreateNumbered? && s.threads[u].CreateNumbered?
          ==> s.threads[t].id != s.threads[u].id)
  }

  /** `seen_tokens_` is exactly the live tokens and the owned ones, and no token is twice in
      that union. */
  ghost predicate TokensOk(store: Store, threads: map<nat, Pc>) {
    && (forall i :: 0 <= i < |store.exams| ==> store.exams[i].token in store.seen)
    && (forall t, x :: OwnsToken(threads, t, x) ==> x in store.seen && !HasToken(store.exams, x) && IsToken(x))
    && (forall t, u, x :: OwnsToken(threads, t, x) && OwnsToken(threads, u, x) ==> t == u)
    && (forall x :: x in store.seen ==> HasToken(store.exams, x) || exists t :: OwnsToken(threads, t, x))
  }

  ghost predicate TokenInv(s: System) {
    ExamsOk(s.store.exams, s.store.nextId) && NumbersOk(s) && TokensOk(s.store, s.threads)
  }

  /** A step of one thread that touches neither tokens nor exams. */
  lemma KeepTokens(store: Store, threads: map<nat, Pc>, threads': map<nat, Pc>, tid: nat)
    requires TokensOk(store, threads)
    requires forall t, x :: t != tid ==> (OwnsToken(threads', t, x) <==> OwnsToken(threads, t, x))
    requires forall x :: OwnsToken(threads', tid, x) <==> OwnsToken(threads, tid, x)
    ensures TokensOk(store, threads')
  {
    forall x | x in store.seen && !HasToken(store.exams, x) ensures exists t :: OwnsToken(threads', t, x) {
      var t :| OwnsToken(threads, t, x);
      assert OwnsToken(threads', t, x);
    }
  }

  /** A claim: a token nobody has becomes owned. */
  lemma ClaimKeepsTokens(store: Store, threads: map<nat, Pc>, tid: nat, token: Token, pc: Pc)
    requires TokensOk(store, threads) && IsToken(token)
    requires token !in store.seen && !HasToken(store.exams, token)
    requires tid in threads && Owned(threads[tid]) == None && Owned(pc) == Some(token)
    ensures TokensOk(store.(seen := store.seen + {token}), threads[tid := pc])
  {
    var threads' := threads[tid := pc];
    forall x | x in store.seen + {token} && !HasToken(store.exams, x) ensures exists t :: OwnsToken(threads', t, x) {
      if x == token {
        assert OwnsToken(threads', tid, x);
      } else {
        var t :| OwnsToken(threads, t, x);
        assert OwnsToken(threads', t, x);
      }
    }
    assert forall t, x :: OwnsToken(threads', t, x) ==> (t == tid && x == token) || (t != tid && OwnsToken(threads, t, x));
  }

  /** Giving an owned token back. */
  lemma UnclaimKeepsTokens(store: Store, threads: map<nat, Pc>, threads': map<nat, Pc>, tid: nat, token: Token)
    requires TokensOk(store, threads) && OwnsToken(threads, tid, token)
    requires forall t, x :: OwnsToken(threads', t, x) <==> (t != tid && OwnsToken(threads, t, x))
    ensures TokensOk(Unclaimed(store, token), threads')
  {
    forall x | x in store.seen - {token} && !HasToken(store.exams, x) ensures exists t :: OwnsToken(threads', t, x) {
      var t :| OwnsToken(threads, t, x);
      assert OwnsToken(threads', t, x);
    }
  }

  lemma HasTokenAppend(exams: seq<Exam>, e: Exam, x: Token)
    ensures HasToken(exams + [e], x) <==> HasToken(exams, x) || e.token == x
  {
    var all := exams + [e];
    assert all[|exams|] == e;
    assert forall i :: 0 <= i < |exams| ==> all[i] == exams[i];
  }

  /** An owned token becomes the token of a new exam. */
  lemma AddKeepsTokens(store: Store, threads: map<nat, Pc>, tid: nat, e: Exam, pc: Pc)
    requires TokensOk(store, threads) && OwnsToken(threads, tid, e.token) && Owned(pc) == None
    ensures TokensOk(store.(exams := store.exams + [e]), threads[tid := pc])
  {
    var threads' := threads[tid := pc];
    forall x ensures HasToken(store.exams + [e], x) <==> HasToken(store.exams, x) || e.token == x {
      HasTokenAppend(store.exams, e, x);
    }
    forall x | x in store.seen && !HasToken(store.exams + [e], x) ensures exists t :: OwnsToken(threads', t, x) {
      var t :| OwnsToken(threads, t, x);
      assert t != tid && OwnsToken(threads', t, x);
    }
    assert forall t, x :: OwnsToken(threads', t, x) ==> t != tid && OwnsToken(threads, t, x);
  }

  /** An owned token and the token of an exam change places. */
  lemma SwapKeepsTokens(store: Store, threads: map<nat, Pc>, tid: nat, i: nat, token: Token, pc: Pc)
    requires TokensOk(store, threads) && OwnsToken(threads, tid, token) && ExamsOk(store.exams, store.nextId)
    requires i < |store.exams| && Owned(pc) == Some(store.exams[i].token)
    ensures TokensOk(store.(exams := store.exams[i := store.exams[i].(token := token, activeToken := token)]), threads[tid := pc])
  {
    var oldToken := store.exams[i].token;
    var exams' := store.exams[i := store.exams[i].(token := token, activeToken := token)];
    var threads' := threads[tid := pc];
    assert HasToken(store.exams, oldToken);
    forall x ensures HasToken(exams', x) <==> x == token || (HasToken(store.exams, x) && x != oldToken) {
      if x == token {
        assert exams'[i].token == x;
      } else if HasToken(store.exams, x) && x != oldToken {
        var j :| 0 <= j < |store.exams| && store.exams[j].token == x;
        assert exams'[j].token == x;
      }
    }
    forall x | x in store.seen && !HasToken(exams', x) ensures exists t :: OwnsToken(threads', t, x) {
      if x == oldToken {
        assert OwnsToken(threads', tid, x);
      } else {
        var t :| OwnsToken(threads, t, x);
        assert t != tid && OwnsToken(threads', t, x);
      }
    }
    assert forall t, x :: OwnsToken(threads', t, x) ==> (t == tid && x == oldToken) || (t != tid && OwnsToken(threads, t, x));
  }

  lemma HasTokenWithout(exams: seq<Exam>, nextId: int, i: nat, x: Token)
    requires ExamsOk(exams, nextId) && i < |exams|
    ensures HasToken(exams[..i] + exams[i + 1..], x) <==> HasToken(exams, x) && x != exams[i].token
  {
    var rest := exams[..i] + exams[i + 1..];
    assert forall j :: 0 <= j < |rest| ==> rest[j] == exams[if j < i then j else j + 1];
    if HasToken(exams, x) && x != exams[i].token {
      var j :| 0 <= j < |exams| && exams[j].token == x;
      assert rest[if j < i then j else j - 1].token == x;
    }
  }

  /** An exam goes, and its token with it. */
  lemma RemoveKeepsTokens(store: Store, threads: map<nat, Pc>, threads': map<nat, Pc>, i: nat)
    requires TokensOk(store, threads) && ExamsOk(store.exams, store.nextId) && i < |store.exams|
    requires forall t, x :: OwnsToken(threads', t, x) <==> OwnsToken(threads, t, x)
    ensures TokensOk(store.(exams := store.exams[..i] + store.exams[i + 1..], seen := store.seen - {store.exams[i].token}), threads')
  {
    var exams' := store.exams[..i] + store.exams[i + 1..];
    forall x ensures HasToken(exams', x) <==> HasToken(store.exams, x) && x != store.exams[i].token {
      HasTokenWithout(store.exams, store.nextId, i, x);
    }
    assert HasToken(store.exams, store.exams[i].token);
    forall j | 0 <= j < |exams'| ensures exams'[j].token in store.seen - {store.exams[i].token} {
      assert HasToken(exams', exams'[j].token);
      assert exams'[j] == store.exams[if j < i then j else j + 1];
    }
    forall x | x in store.seen - {store.exams[i].token} && !HasToken(exams', x) ensures exists t :: OwnsToken(threads', t, x) {
      var t :| OwnsToken(threads, t, x);
      assert OwnsToken(threads', t, x);
    }
  }

  // ---- Every step keeps the token invariant -----------------------------------

  lemma BeginKeepsTokens(s: System, tid: nat, pc: Pc)
    requires TokenInv(s) && Enabled(s, Begin(tid, pc))
    ensures TokenInv(Next(s, Begin(tid, pc)))
  {
    KeepTokens(s.store, s.threads, s.threads[tid := pc], tid);
  }

  lemma ReserveKeepsTokens(s: System, tid: nat, custom: bool)
    requires TokenInv(s) && Enabled(s, Reserve(tid, custom))
    ensures TokenInv(Next(s, Reserve(tid, custom)))
  {
    var s' := Next(s, Reserve(tid, custom));
    KeepTokens(s.store, s.threads, s'.threads, tid);
  }

  lemma TryTokenKeepsTokens(s: System, tid: nat, token: Token)
    requires TokenInv(s) && Enabled(s, TryToken(tid, token))
    ensures TokenInv(Next(s, TryToken(tid, token)))
  {
    var s' := Next(s, TryToken(tid, token));
    if s'.store == s.store {
      KeepTokens(s.store, s.threads, s'.threads, tid);
    } else {
      ClaimIsNew(s, token);
      ClaimKeepsTokens(s.store, s.threads, tid, token, s'.threads[tid]);
    }
  }

  /** Under the invariant both kinds of claim test the same thing: a live token is always
      in the set, so the excluded exam makes no difference. */
  lemma ClaimIsNew(s: System, token: Token)
    requires TokenInv(s)
    ensures token !in s.store.seen ==> !HasToken(s.store.exams, token)
  {
  }

  lemma RejectKeepsTokens(s: System, tid: nat)
    requires TokenInv(s) && Enabled(s, Reject(tid))
    ensures TokenInv(Next(s, Reject(tid)))
  {
    var s' := Next(s, Reject(tid));
    KeepTokens(s.store, s.threads, s'.threads, tid);
  }

  lemma CreateStepKeepsTokens(s: System, tid: nat)
    requires TokenInv(s) && Enabled(s, Proceed(tid))
    requires s.threads[tid].CreateClaimed? || s.threads[tid].CreateFail? || s.threads[tid].CreateAdded?
    ensures TokenInv(Next(s, Proceed(tid)))
  {
    KeepTokens(s.store, s.threads, Next(s, Proceed(tid)).threads, tid);
  }

  lemma UndoStepKeepsTokens(s: System, tid: nat)
    requires TokenInv(s) && Enabled(s, Proceed(tid)) && s.threads[tid].CreateUndo?
    ensures TokenInv(Next(s, Proceed(tid)))
  {
    UnclaimKeepsTokens(s.store, s.threads, Next(s, Proceed(tid)).threads, tid, s.threads[tid].token);
  }

  /** Adding never fails once the token is claimed. */
  lemma AddSucceeds(s: System, tid: nat)
    requires TokenInv(s) && tid in s.threads && s.threads[tid].CreateNumbered?
    ensures var pc := s.threads[tid]; Added(s.store, Exam(pc.id, pc.token, pc.token)).1
  {
    assert OwnsToken(s.threads, tid, s.threads[tid].token);
  }

  lemma NobodyHas(exams: seq<Exam>, token: Token)
    requires !HasToken(exams, token)
    ensures forall i :: 0 <= i < |exams| ==> exams[i].token != token
  {
    forall i | 0 <= i < |exams| ensures exams[i].token != token {
      assert exams[i].token == token ==> HasToken(exams, token);
    }
  }

  lemma AddStepKeepsTokens(s: System, tid: nat)
    requires TokenInv(s) && Enabled(s, Proceed(tid)) && s.threads[tid].CreateNumbered?
    ensures TokenInv(Next(s, Proceed(tid)))
  {
    var CreateNumbered(req, token, id) := s.threads[tid];
    var e := Exam(id, token, token);
    var s' := Next(s, Proceed(tid));
    AddSucceeds(s, tid);
    assert OwnsToken(s.threads, tid, token);
    AddKeepsTokens(s.store, s.threads, tid, e, CreateAdded(req, id));
    NobodyHas(s.store.exams, token);
  }

  lemma SwapStepKeepsTokens(s: System, tid: nat)
    requires TokenInv(s) && Enabled(s, Proceed(tid)) && s.threads[tid].SwapClaimed?
    ensures TokenInv(Next(s, Proceed(tid)))
  {
    var SwapClaimed(id, token) := s.threads[tid];
    var i := IndexOf(s.store.exams, id);
    assert OwnsToken(s.threads, tid, token);
    if i == |s.store.exams| {
      KeepTokens(s.store, s.threads, Next(s, Proceed(tid)).threads, tid);
    } else {
      SwapFoundKeepsTokens(s, tid, i, token);
    }
  }

  lemma SwapFoundKeepsTokens(s: System, tid: nat, i: nat, token: Token)
    requires TokenInv(s) && OwnsToken(s.threads, tid, token) && i < |s.store.exams|
    ensures var e := s.store.exams[i];
            TokenInv(Moved(s.(store := s.store.(exams := s.store.exams[i := e.(token := token, activeToken := token)])),
                           tid, SwapRelease(e.token)))
  {
    SwapKeepsTokens(s.store, s.threads, tid, i, token, SwapRelease(s.store.exams[i].token));
    NobodyHas(s.store.exams, token);
  }

  lemma GiveBackKeepsTokens(s: System, tid: nat)
    requires TokenInv(s) && Enabled(s, Proceed(tid))
    requires s.threads[tid].SwapUndo? || s.threads[tid].SwapRelease? || s.threads[tid].DeleteStart?
    ensures TokenInv(Next(s, Proceed(tid)))
  {
    var s' := Next(s, Proceed(tid));
    match s.threads[tid]
    case SwapUndo(token) => UnclaimKeepsTokens(s.store, s.threads, s'.threads, tid, token);
    case SwapRelease(oldToken) => UnclaimKeepsTokens(s.store, s.threads, s'.threads, tid, oldToken);
    case DeleteStart(_) => KeepTokens(s.store, s.threads, s'.threads, tid);
  }

  lemma DeleteStepKeepsTokens(s: System, tid: nat)
    requires TokenInv(s) && Enabled(s, Proceed(tid)) && s.threads[tid].DeleteFound?
    ensures TokenInv(Next(s, Proceed(tid)))
  {
    var s' := Next(s, Proceed(tid));
    var i := IndexOf(s.store.exams, s.threads[tid].id);
    if i == |s.store.exams| {
      KeepTokens(s.store, s.threads, s'.threads, tid);
    } else {
      RemoveKeepsTokens(s.store, s.threads, s'.threads, i);
      RemoveKeepsExams(s, s', i);
    }
  }

  lemma RemoveKeepsExams(s: System, s': System, i: nat)
    requires ExamsOk(s.store.exams, s.store.nextId) && NumbersOk(s) && i < |s.store.exams|
    requires s'.store.exams == s.store.exams[..i] + s.store.exams[i + 1..] && s'.store.nextId == s.store.nextId
    requires forall t :: t in s'.threads ==> t in s.threads && s'.threads[t] == s.threads[t]
    ensures ExamsOk(s'.store.exams, s'.store.nextId) && NumbersOk(s')
  {
    assert forall j :: 0 <= j < |s'.store.exams| ==> s'.store.exams[j] == s.store.exams[if j < i then j else j + 1];
  }

  lemma FinishKeepsTokens(s: System, a: Action)
    requires TokenInv(s) && Enabled(s, a) && a.Finish?
    ensures TokenInv(Next(s, a))
  {
    KeepTokens(s.store, s.threads, Next(s, a).threads, a.tid);
  }

  lemma StepKeepsTokens(s: System, a: Action)
    requires TokenInv(s) && Enabled(s, a)
    ensures TokenInv(Next(s, a))
  {
    match a
    case Begin(tid, pc) => BeginKeepsTokens(s, tid, pc);
    case Reserve(tid, custom) => ReserveKeepsTokens(s, tid, custom);
    case TryToken(tid, token) => TryTokenKeepsTokens(s, tid, token);
    case Reject(tid) => RejectKeepsTokens(s, tid);
    case Finish(_, _, _, _) => FinishKeepsTokens(s, a);
    case Proceed(tid) =>
      var pc := s.threads[tid];
      if pc.CreateNumbered? { AddStepKeepsTokens(s, tid); }
      else if pc.SwapClaimed? { SwapStepKeepsTokens(s, tid); }
      else if pc.DeleteFound? { DeleteStepKeepsTokens(s, tid); }
      else if pc.SwapUndo? || pc.SwapRelease? || pc.DeleteStart? { GiveBackKeepsTokens(s, tid); }
      else if pc.CreateUndo? { UndoStepKeepsTokens(s, tid); }
      else { CreateStepKeepsTokens(s, tid); }
  }

  // ---- Idempotency keys -------------------------------------------------------

  /** The key a create handler has reserved and must finalize or release. */
  function Holds(pc: Pc): Option<Key> {
    match pc
    case CreateReserved(req, _, _) => req.key
    case CreateClaimed(req, _) => req.key
    case CreateNumbered(req, _, _) => req.key
    case CreateUndo(req, _) => req.key
    case CreateFail(req) => req.key
    case CreateAdded(req, _) => req.key
    case _ => None
  }

  predicate HoldsKey(threads: map<nat, Pc>, t: nat, key: Key) {
    t in threads && Holds(threads[t]) == Some(key)
  }

  predicate Pending(store: Store, key: Key) {
    key in store.idem && !store.idem[key].completed
  }

  predicate MadeUnder(made: seq<(Key, int)>, key: Key) {
    exists i :: 0 <= i < |made| && made[i].0 == key
  }

  /** A pending key has one holder, or was left behind; a completed one has none, and its
      entry is the response that was finalized. */
  ghost predicate HoldersOk(s: System) {
    && (forall t, k :: HoldsKey(s.threads, t, k) ==> Pending(s.store, k) && k !in s.abandoned)
    && (forall t, u, k :: HoldsKey(s.threads, t, k) && HoldsKey(s.threads, u, k) ==> t == u)
    && (forall k :: k in s.abandoned ==> Pending(s.store, k))
    && (forall k :: Pending(s.store, k) && k !in s.abandoned ==> exists t :: HoldsKey(s.threads, t, k))
  }

  ghost predicate FinalsOk(s: System) {
    && (forall k :: k in s.finals ==> k in s.store.idem && s.store.idem[k] == s.finals[k] && s.finals[k].completed)
    && (forall k :: k in s.store.idem && s.store.idem[k].completed ==> k in s.finals)
    && (forall i :: 0 <= i < |s.replays| ==> IsFinal(s.finals, s.replays[i]))
  }

  predicate IsFinal(finals: map<Key, IdemEntry>, r: Answer) {
    r.key in finals && finals[r.key] == IdemEntry(r.fingerprint, true, r.status, r.body, r.contentType)
  }

  /** An exam was made under a key only if the key is completed, left behind, or held by a
      handler that has added its exam; and then only once. */
  ghost predicate MadeOk(s: System) {
    && (forall i, j :: 0 <= i < j < |s.made| ==> s.made[i].0 != s.made[j].0)
    && (forall k :: MadeUnder(s.made, k) ==> k in s.store.idem)
    && (forall t, k :: HoldsKey(s.threads, t, k) ==> (MadeUnder(s.made, k) <==> s.threads[t].CreateAdded?))
    && (forall k :: k in s.finals || k in s.abandoned ==> MadeUnder(s.made, k))
  }

  ghost predicate KeyInv(s: System) {
    HoldersOk(s) && FinalsOk(s) && MadeOk(s)
  }

  /** A step that leaves the key alone: the same holder, the same stage. */
  lemma KeepKeys(s: System, s': System, tid: nat)
    requires KeyInv(s)
    requires s'.store.idem == s.store.idem && s'.made == s.made && s'.finals == s.finals
    requires s'.replays == s.replays && s'.abandoned == s.abandoned
    requires forall t, k :: t != tid ==> (HoldsKey(s'.threads, t, k) <==> HoldsKey(s.threads, t, k))
    requires forall k :: HoldsKey(s'.threads, tid, k) <==> HoldsKey(s.threads, tid, k)
    requires forall t :: t != tid && t in s.threads && t in s'.threads ==> s'.threads[t] == s.threads[t]
    requires tid in s.threads && tid in s'.threads && Holds(s.threads[tid]).Some? ==>
               (s'.threads[tid].CreateAdded? <==> s.threads[tid].CreateAdded?)
    ensures KeyInv(s')
  {
    forall k | Pending(s'.store, k) && k !in s'.abandoned ensures exists t :: HoldsKey(s'.threads, t, k) {
      var t :| HoldsKey(s.threads, t, k);
      assert HoldsKey(s'.threads, t, k);
    }
  }

  /** The same for a handler that moves on, or ends, without a key or with the same one. */
  lemma MoveKeepsKeys(s: System, s': System, tid: nat)
    requires KeyInv(s) && tid in s.threads && tid in s'.threads && s'.threads == s.threads[tid := s'.threads[tid]]
    requires s'.store.idem == s.store.idem && s'.made == s.made && s'.finals == s.finals
    requires s'.replays == s.replays && s'.abandoned == s.abandoned
    requires Holds(s'.threads[tid]) == Holds(s.threads[tid])
    requires Holds(s.threads[tid]).Some? ==> (s'.threads[tid].CreateAdded? <==> s.threads[tid].CreateAdded?)
    ensures KeyInv(s')
  {
    KeepKeys(s, s', tid);
  }

  lemma EndKeepsKeys(s: System, s': System, tid: nat)
    requires KeyInv(s) && tid in s.threads && s'.threads == s.threads - {tid} && Holds(s.threads[tid]) == None
    requires s'.store.idem == s.store.idem && s'.made == s.made && s'.finals == s.finals
    requires s'.replays == s.replays && s'.abandoned == s.abandoned
    ensures KeyInv(s')
  {
    KeepKeys(s, s', tid);
  }

  lemma NewReservationKeepsKeys(s: System, tid: nat, req: Request, pc: Pc)
    requires KeyInv(s) && tid in s.threads && Holds(s.threads[tid]) == None
    requires req.key.Some? && req.key.value !in s.store.idem && Holds(pc) == req.key && !pc.CreateAdded?
    ensures KeyInv(Moved(s.(store := Reserved(s.store, req.key.value, req.fingerprint).0), tid, pc))
  {
    var key := req.key.value;
    var s' := Moved(s.(store := Reserved(s.store, key, req.fingerprint).0), tid, pc);
    assert forall t, k :: HoldsKey(s'.threads, t, k) <==> (t == tid && k == key) || (t != tid && HoldsKey(s.threads, t, k));
    forall k | Pending(s'.store, k) && k !in s'.abandoned ensures exists t :: HoldsKey(s'.threads, t, k) {
      if k == key {
        assert HoldsKey(s'.threads, tid, k);
      } else {
        assert Pending(s.store, k);
        var t :| HoldsKey(s.threads, t, k);
        assert HoldsKey(s'.threads, t, k);
      }
    }
  }

  lemma ReserveKeepsKeys(s: System, tid: nat, custom: bool)
    requires KeyInv(s) && Enabled(s, Reserve(tid, custom))
    ensures KeyInv(Next(s, Reserve(tid, custom)))
  {
    var req := s.threads[tid].req;
    var s' := Next(s, Reserve(tid, custom));
    if req.key == None {
      KeepKeys(s, s', tid);
    } else {
      var key := req.key.value;
      var r := Reserved(s.store, key, req.fingerprint).1;
      if r == New {
        NewReservationKeepsKeys(s, tid, req, CreateReserved(req, custom, 0));
      } else {
        KeepKeys(s, s.(threads := s.threads - {tid}), tid);
        if r.Replay? {
          assert IsFinal(s.finals, Answer(key, req.fingerprint, r.status, r.body, r.contentType));
        }
      }
    }
  }

  /** The holder leaves: it releases its key, finalizes it, or abandons it. */
  lemma ReleaseKeepsKeys(s: System, tid: nat)
    requires KeyInv(s) && tid in s.threads && s.threads[tid].CreateFail? && s.threads[tid].req.key.Some?
    ensures KeyInv(Ended(s.(store := Released(s.store, s.threads[tid].req.key.value)), tid))
  {
    var key := s.threads[tid].req.key.value;
    var s' := Ended(s.(store := Released(s.store, key)), tid);
    assert HoldsKey(s.threads, tid, key);
    assert forall t, k :: HoldsKey(s'.threads, t, k) <==> t != tid && HoldsKey(s.threads, t, k);
    forall k | Pending(s'.store, k) && k !in s'.abandoned ensures exists t :: HoldsKey(s'.threads, t, k) {
      var t :| HoldsKey(s.threads, t, k);
      assert HoldsKey(s'.threads, t, k);
    }
  }

  lemma AbandonKeepsKeys(s: System, tid: nat)
    requires KeyInv(s) && tid in s.threads && s.threads[tid].CreateAdded? && s.threads[tid].req.key.Some?
    ensures KeyInv(Ended(s.(abandoned := s.abandoned + {s.threads[tid].req.key.value}), tid))
  {
    var key := s.threads[tid].req.key.value;
    var s' := Ended(s.(abandoned := s.abandoned + {key}), tid);
    assert HoldsKey(s.threads, tid, key);
    assert forall t, k :: HoldsKey(s'.threads, t, k) <==> t != tid && HoldsKey(s.threads, t, k);
    forall k | Pending(s'.store, k) && k !in s'.abandoned ensures exists t :: HoldsKey(s'.threads, t, k) {
      var t :| HoldsKey(s.threads, t, k);
      assert HoldsKey(s'.threads, t, k);
    }
  }

  lemma FinishKeepsKeys(s: System, a: Action)
    requires KeyInv(s) && Enabled(s, a) && a.Finish?
    ensures KeyInv(Next(s, a))
  {
    var tid := a.tid;
    if s.threads[tid].req.key == None {
      EndKeepsKeys(s, AfterFinish(s, tid, a.status, a.body, a.contentType), tid);
    } else {
      FinishWithKey(s, tid, s.threads[tid].req.key.value, a.status, a.body, a.contentType);
    }
  }

  lemma FinishWithKey(s: System, tid: nat, key: Key, status: int, body: string, contentType: string)
    requires KeyInv(s) && tid in s.threads && s.threads[tid].CreateAdded? && s.threads[tid].req.key == Some(key)
    ensures KeyInv(AfterFinish(s, tid, status, body, contentType))
  {
    var s' := AfterFinish(s, tid, status, body, contentType);
    assert HoldsKey(s.threads, tid, key);
    assert forall t, k :: HoldsKey(s'.threads, t, k) <==> t != tid && HoldsKey(s.threads, t, k);
    forall k | Pending(s'.store, k) && k !in s'.abandoned ensures exists t :: HoldsKey(s'.threads, t, k) {
      assert k != key && Pending(s.store, k);
      var t :| HoldsKey(s.threads, t, k);
      assert HoldsKey(s'.threads, t, k);
    }
    assert key !in s.finals;
  }

  lemma AddKeepsKeys(s: System, tid: nat)
    requires TokenInv(s) && KeyInv(s) && Enabled(s, Proceed(tid)) && s.threads[tid].CreateNumbered?
    ensures KeyInv(Next(s, Proceed(tid)))
  {
    AddSucceeds(s, tid);
    var s' := Next(s, Proceed(tid));
    var CreateNumbered(req, token, id) := s.threads[tid];
    if req.key == None {
      KeepKeys(s, s', tid);
    } else {
      var key := req.key.value;
      assert HoldsKey(s.threads, tid, key);
      assert forall t, k :: HoldsKey(s'.threads, t, k) <==> HoldsKey(s.threads, t, k);
      forall k ensures MadeUnder(s'.made, k) <==> MadeUnder(s.made, k) || k == key {
        assert s'.made[|s.made|].0 == key;
        assert forall i :: 0 <= i < |s.made| ==> s'.made[i] == s.made[i];
      }
      forall k | Pending(s'.store, k) && k !in s'.abandoned ensures exists t :: HoldsKey(s'.threads, t, k) {
        var t :| HoldsKey(s.threads, t, k);
        assert HoldsKey(s'.threads, t, k);
      }
      forall i | 0 <= i < |s.made| ensures s.made[i].0 != key {
        assert s.made[i].0 == key ==> MadeUnder(s.made, key);
      }
    }
  }

  lemma BeginKeepsKeys(s: System, tid: nat, pc: Pc)
    requires KeyInv(s) && Enabled(s, Begin(tid, pc))
    ensures KeyInv(Next(s, Begin(tid, pc)))
  {
    KeepKeys(s, Moved(s, tid, pc), tid);
  }

  lemma TryTokenKeepsKeys(s: System, tid: nat, token: Token)
    requires KeyInv(s) && Enabled(s, TryToken(tid, token))
    ensures KeyInv(Next(s, TryToken(tid, token)))
  {
    var s' := AfterTryToken(s, tid, token);
    if tid in s'.threads {
      MoveKeepsKeys(s, s', tid);
    } else {
      EndKeepsKeys(s, s', tid);
    }
  }

  lemma RejectKeepsKeys(s: System, tid: nat)
    requires KeyInv(s) && Enabled(s, Reject(tid))
    ensures KeyInv(Next(s, Reject(tid)))
  {
    KeepKeys(s, AfterReject(s, tid), tid);
  }

  lemma SwapStepKeepsKeys(s: System, tid: nat)
    requires KeyInv(s) && Enabled(s, Proceed(tid)) && Holds(s.threads[tid]) == None
    requires s.threads[tid].SwapClaimed? || s.threads[tid].SwapUndo? || s.threads[tid].SwapRelease?
             || s.threads[tid].DeleteStart? || s.threads[tid].DeleteFound?
    ensures KeyInv(Next(s, Proceed(tid)))
  {
    var s' := AfterSwapStep(s, tid);
    if tid in s'.threads {
      MoveKeepsKeys(s, s', tid);
    } else {
      EndKeepsKeys(s, s', tid);
    }
  }

  lemma CreateStepKeepsKeys(s: System, tid: nat)
    requires KeyInv(s) && Enabled(s, Proceed(tid))
    requires s.threads[tid].CreateClaimed? || s.threads[tid].CreateUndo? || s.threads[tid].CreateFail? || s.threads[tid].CreateAdded?
    ensures KeyInv(Next(s, Proceed(tid)))
  {
    var pc := s.threads[tid];
    if pc.CreateFail? && pc.req.key.Some? { ReleaseKeepsKeys(s, tid); }
    else if pc.CreateAdded? && pc.req.key.Some? { AbandonKeepsKeys(s, tid); }
    else { KeepKeys(s, AfterCreateStep(s, tid), tid); }
  }

  lemma StepKeepsKeys(s: System, a: Action)
    requires TokenInv(s) && KeyInv(s) && Enabled(s, a)
    ensures KeyInv(Next(s, a))
  {
    match a
    case Begin(tid, pc) => BeginKeepsKeys(s, tid, pc);
    case TryToken(tid, token) => TryTokenKeepsKeys(s, tid, token);
    case Reject(tid) => RejectKeepsKeys(s, tid);
    case Reserve(tid, custom) => ReserveKeepsKeys(s, tid, custom);
    case Finish(_, _, _, _) => FinishKeepsKeys(s, a);
    case Proceed(tid) =>
      var pc := s.threads[tid];
      if pc.CreateNumbered? { AddKeepsKeys(s, tid); }
      else if pc.CreateClaimed? || pc.CreateUndo? || pc.CreateFail? || pc.CreateAdded? { CreateStepKeepsKeys(s, tid); }
      else { SwapStepKeepsKeys(s, tid); }
  }

  // ---- Over whole runs --------------------------------------------------------

  lemma InitialIsSafe()
    ensures TokenInv(INITIAL) && KeyInv(INITIAL)
  {
  }

  /** Both invariants hold after every run, whatever the interleaving. */
  lemma {:induction false} RunIsSafe(s: System, run: seq<Action>)
    requires TokenInv(s) && KeyInv(s) && CanRun(s, run)
    ensures TokenInv(Run(s, run)) && KeyInv(Run(s, run))
    decreases |run|
  {
    if run != [] {
      StepKeepsTokens(s, run[0]);
      StepKeepsKeys(s, run[0]);
      RunIsSafe(Next(s, run[0]), run[1..]);
    }
  }

  ghost predicate Reachable(s: System) {
    exists run :: CanRun(INITIAL, run) && Run(INITIAL, run) == s
  }

  lemma ReachableIsSafe(s: System)
    requires Reachable(s)
    ensures TokenInv(s) && KeyInv(s)
  {
    var run :| CanRun(INITIAL, run) && Run(INITIAL, run) == s;
    InitialIsSafe();
    RunIsSafe(INITIAL, run);
  }

  function LiveTokens(exams: seq<Exam>): set<Token> {
    set i | 0 <= i < |exams| :: exams[i].token
  }

  /** No two exams share a token or an id, and when no handler is in flight the set of taken
      tokens is exactly the tokens of the exams: nothing leaks. */
  lemma TokensAtRest(s: System)
    requires Reachable(s)
    ensures forall i, j :: 0 <= i < j < |s.store.exams| ==>
              s.store.exams[i].token != s.store.exams[j].token && s.store.exams[i].id != s.store.exams[j].id
    ensures s.threads == map[] ==> s.store.seen == LiveTokens(s.store.exams)
  {
    ReachableIsSafe(s);
    if s.threads == map[] {
      forall x ensures x in s.store.seen <==> x in LiveTokens(s.store.exams) {
        if x in s.store.seen {
          assert forall t :: !OwnsToken(s.threads, t, x);
          assert HasToken(s.store.exams, x);
        }
      }
    }
  }

  /** In any reachable state the claim that precedes `add` makes it succeed, so the cleanup
      after a failed `add` is never run. */
  lemma AddAlwaysSucceeds(s: System, tid: nat)
    requires Reachable(s) && tid in s.threads && s.threads[tid].CreateNumbered?
    ensures Next(s, Proceed(tid)).threads[tid].CreateAdded?
  {
    ReachableIsSafe(s);
    AddSucceeds(s, tid);
  }

  /** Editing an exam to the token it already has is refused, although the comment on the
      claim calls it a legitimate re-claim: the token is in the set already. */
  lemma OwnTokenIsRefused(s: System, tid: nat, i: nat)
    requires Reachable(s) && i < |s.store.exams| && tid in s.threads && s.threads[tid] == EditStart(s.store.exams[i].id)
    ensures Enabled(s, TryToken(tid, s.store.exams[i].token))
    ensures Next(s, TryToken(tid, s.store.exams[i].token)) == Ended(s, tid)
  {
    ReachableIsSafe(s);
  }

  /** An edit is refused exactly when the token is taken, by any exam or any handler. */
  lemma EditRefusedWhenTaken(s: System, tid: nat, token: Token)
    requires Reachable(s) && Enabled(s, TryToken(tid, token)) && s.threads[tid].EditStart?
    ensures Next(s, TryToken(tid, token)) == Ended(s, tid)
            <==> HasToken(s.store.exams, token) || exists t :: OwnsToken(s.threads, t, token)
  {
    ReachableIsSafe(s);
    var s' := Next(s, TryToken(tid, token));
    assert token !in s.store.seen ==> tid in s'.threads;
    assert tid !in Ended(s, tid).threads;
  }

  /** Each idempotency key makes at most one exam, and every replay gives the finalized
      response to the same request. */
  lemma OneExamPerKey(s: System)
    requires Reachable(s)
    ensures forall i, j :: 0 <= i < j < |s.made| ==> s.made[i].0 != s.made[j].0
    ensures forall i :: 0 <= i < |s.replays| ==> IsFinal(s.finals, s.replays[i])
    ensures forall t, u, k :: HoldsKey(s.threads, t, k) && HoldsKey(s.threads, u, k) ==> t == u
  {
    ReachableIsSafe(s);
  }

  /** When no handler is in flight, the keys still pending are exactly those of the create
      requests that were answered in protobuf. */
  lemma PendingAtRest(s: System)
    requires Reachable(s) && s.threads == map[]
    ensures forall k :: Pending(s.store, k) <==> k in s.abandoned
  {
    ReachableIsSafe(s);
    forall k | Pending(s.store, k) ensures k in s.abandoned {
      assert forall t :: !HoldsKey(s.threads, t, k);
    }
  }

  /** A finalized response never changes and is never dropped. */
  lemma FinalsPersist(s: System, a: Action)
    requires Reachable(s) && Enabled(s, a)
    ensures forall k :: k in s.finals ==> k in Next(s, a).finals && Next(s, a).finals[k] == s.finals[k]
  {
    if a.Finish? {
      ReachableIsSafe(s);
      FinishAddsFinal(s, a);
    } else {
      OnlyFinishFinalizes(s, a);
    }
  }

  lemma OnlyFinishFinalizes(s: System, a: Action)
    requires Enabled(s, a) && !a.Finish?
    ensures Next(s, a).finals == s.finals
  {
  }

  lemma FinishAddsFinal(s: System, a: Action)
    requires KeyInv(s) && Enabled(s, a) && a.Finish?
    ensures forall k :: k in s.finals ==> k in Next(s, a).finals && Next(s, a).finals[k] == s.finals[k]
  {
    var key := s.threads[a.tid].req.key;
    if key.Some? {
      assert HoldsKey(s.threads, a.tid, key.value);
    }
  }
}
