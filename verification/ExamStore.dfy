/**
 The in-memory exam store, `src/store/exam_store_memory.cpp`: the exam list, the set of
 tokens that are taken, and the idempotency entries. Every method of the class runs under
 one lock, so each is one atomic step.

 Of an exam only the id and the two token fields are kept; the other fields are never
 read by the protocols proved in module ExamProtocol.
 */
module ExamStore {
  import opened Wrappers

  type Token = string
  type Key = string

  datatype Exam = Exam(id: int, token: Token, activeToken: Token)

  datatype IdemEntry = IdemEntry(fingerprint: string, completed: bool, status: int, body: string, contentType: string)

  datatype Reservation = New | Replay(status: int, body: string, contentType: string) | Conflict

  /** The contents of the store. */
  datatype Store = Store(exams: seq<Exam>, seen: set<Token>, nextId: int, idem: map<Key, IdemEntry>)

  const EMPTY := Store([], {}, 1, map[])

  // ---- What each operation does to the contents -------------------------------

  predicate HasToken(exams: seq<Exam>, token: Token) {
    exists i :: 0 <= i < |exams| && exams[i].token == token
  }

  /** The position of the first exam with the id, or |exams|. */
  function IndexOf(exams: seq<Exam>, id: int): (i: nat)
    ensures i <= |exams|
    ensures i < |exams| ==> exams[i].id == id
    ensures forall j :: 0 <= j < i ==> exams[j].id != id
  {
    if exams == [] then 0
    else if exams[0].id == id then 0
    else
      assert forall j :: 0 < j < |exams| ==> exams[j] == exams[1..][j - 1];
      1 + IndexOf(exams[1..], id)
  }

  function Added(s: Store, e: Exam): (Store, bool) {
    if HasToken(s.exams, e.token) then (s, false) else (s.(exams := s.exams + [e]), true)
  }

  function Claimed(s: Store, token: Token): (Store, bool) {
    if token in s.seen || HasToken(s.exams, token) then (s, false)
    else (s.(seen := s.seen + {token}), true)
  }

  /** Some exam other than the excluded one has the token; an id of 0 or less excludes none. */
  predicate TokenTaken(exams: seq<Exam>, token: Token, excludeId: int) {
    exists i :: 0 <= i < |exams| && !(excludeId > 0 && exams[i].id == excludeId) && exams[i].token == token
  }

  function ClaimedIfAbsent(s: Store, token: Token, excludeId: int): (Store, bool) {
    if token in s.seen || TokenTaken(s.exams, token, excludeId) then (s, false)
    else (s.(seen := s.seen + {token}), true)
  }

  function Unclaimed(s: Store, token: Token): Store {
    s.(seen := s.seen - {token})
  }

  /** The mutator both token actions pass to `update`: it hands out the old token. */
  function Retokened(s: Store, id: int, token: Token): (Store, Option<Token>) {
    var i := IndexOf(s.exams, id);
    if i == |s.exams| then (s, None)
    else (s.(exams := s.exams[i := s.exams[i].(token := token, activeToken := token)]), Some(s.exams[i].token))
  }

  function Removed(s: Store, id: int): (Store, bool) {
    var i := IndexOf(s.exams, id);
    if i == |s.exams| then (s, false)
    else (s.(exams := s.exams[..i] + s.exams[i + 1..], seen := s.seen - {s.exams[i].token}), true)
  }

  function Reserved(s: Store, key: Key, fingerprint: string): (Store, Reservation) {
    if key in s.idem then
      var e := s.idem[key];
      (s, if e.fingerprint == fingerprint && e.completed then Replay(e.status, e.body, e.contentType) else Conflict)
    else (s.(idem := s.idem[key := IdemEntry(fingerprint, false, 0, "", "")]), New)
  }

  function Finalized(s: Store, key: Key, fingerprint: string, status: int, body: string, contentType: string): Store {
    s.(idem := s.idem[key := IdemEntry(fingerprint, true, status, body, contentType)])
  }

  function Released(s: Store, key: Key): Store {
    s.(idem := s.idem - {key})
  }

  // ---- The same by id, without positions --------------------------------------

  predicate DistinctIds(exams: seq<Exam>) {
    forall i, j :: 0 <= i < j < |exams| ==> exams[i].id != exams[j].id
  }

  predicate HasId(exams: seq<Exam>, id: int) {
    exists e :: e in exams && e.id == id
  }

  /** The exams with another id, in order. */
  function Others(exams: seq<Exam>, id: int): seq<Exam> {
    if exams == [] then []
    else (if exams[0].id != id then [exams[0]] else []) + Others(exams[1..], id)
  }

  /** The tokens of the exams with the id: one, or none. */
  function TokensOf(exams: seq<Exam>, id: int): set<Token> {
    set e | e in exams && e.id == id :: e.token
  }

  /** Every exam with the id has the new token, live at once; the others are as they were. */
  function WithToken(exams: seq<Exam>, id: int, token: Token): seq<Exam> {
    if exams == [] then []
    else [if exams[0].id == id then Exam(id, token, token) else exams[0]] + WithToken(exams[1..], id, token)
  }

  lemma {:induction false} OthersIn(exams: seq<Exam>, id: int, e: Exam)
    ensures e in Others(exams, id) <==> e in exams && e.id != id
  {
    if exams != [] {
      OthersIn(exams[1..], id, e);
      assert exams == [exams[0]] + exams[1..];
    }
  }

  lemma {:induction false} NoneToRemove(exams: seq<Exam>, id: int)
    requires forall j :: 0 <= j < |exams| ==> exams[j].id != id
    ensures Others(exams, id) == exams && TokensOf(exams, id) == {} && !HasId(exams, id)
  {
    if exams != [] {
      NoneToRemove(exams[1..], id);
    }
  }

  lemma {:induction false} AroundOne(exams: seq<Exam>, i: nat)
    requires DistinctIds(exams) && i < |exams|
    ensures Others(exams, exams[i].id) == exams[..i] + exams[i + 1..]
  {
    if i == 0 {
      NoneToRemove(exams[1..], exams[0].id);
      assert exams[..0] + exams[1..] == exams[1..];
    } else {
      AroundOne(exams[1..], i - 1);
      Around(exams, i);
    }
  }

  lemma Around(exams: seq<Exam>, i: nat)
    requires 0 < i < |exams|
    ensures exams[..i] + exams[i + 1..] == [exams[0]] + (exams[1..][..i - 1] + exams[1..][i..])
    ensures exams[1..][i - 1] == exams[i]
  {
  }

  lemma TokenOfOne(exams: seq<Exam>, i: nat)
    requires DistinctIds(exams) && i < |exams|
    ensures TokensOf(exams, exams[i].id) == {exams[i].token} && HasId(exams, exams[i].id)
  {
    forall e | e in exams && e.id == exams[i].id ensures e == exams[i] {
      var j :| 0 <= j < |exams| && exams[j] == e;
    }
    assert exams[i] in exams;
  }

  /** With distinct ids a removal takes out the exam with the id and its token, and nothing
      else; it succeeds exactly when there is one. */
  lemma RemovedTakesOut(s: Store, id: int)
    requires DistinctIds(s.exams)
    ensures Removed(s, id)
            == (s.(exams := Others(s.exams, id), seen := s.seen - TokensOf(s.exams, id)), HasId(s.exams, id))
  {
    var i := IndexOf(s.exams, id);
    if i == |s.exams| {
      NoneToRemove(s.exams, id);
      assert s.seen - {} == s.seen;
    } else {
      AroundOne(s.exams, i);
      TokenOfOne(s.exams, i);
    }
  }

  lemma {:induction false} WithTokenAt(exams: seq<Exam>, id: int, token: Token, i: nat)
    requires i < |exams|
    ensures |WithToken(exams, id, token)| == |exams|
    ensures WithToken(exams, id, token)[i] == if exams[i].id == id then Exam(id, token, token) else exams[i]
  {
    if |exams| > 1 {
      WithTokenAt(exams[1..], id, token, if i == 0 then 0 else i - 1);
    }
  }

  lemma {:induction false} WithTokenLength(exams: seq<Exam>, id: int, token: Token)
    ensures |WithToken(exams, id, token)| == |exams|
  {
    if exams != [] {
      WithTokenLength(exams[1..], id, token);
    }
  }

  lemma SwappedAt(exams: seq<Exam>, id: int, token: Token, swapped: seq<Exam>)
    requires |swapped| == |exams|
    requires forall j :: 0 <= j < |exams| ==> swapped[j] == if exams[j].id == id then Exam(id, token, token) else exams[j]
    ensures swapped == WithToken(exams, id, token)
  {
    WithTokenLength(exams, id, token);
    forall j | 0 <= j < |exams| ensures swapped[j] == WithToken(exams, id, token)[j] { WithTokenAt(exams, id, token, j); }
  }

  /** With distinct ids an edit gives the exam with the id the new token, tells the old one, and
      changes nothing else. */
  lemma RetokenedSwaps(s: Store, id: int, token: Token)
    requires DistinctIds(s.exams)
    ensures var (s', old') := Retokened(s, id, token);
            && s' == s.(exams := WithToken(s.exams, id, token))
            && (old'.Some? <==> HasId(s.exams, id))
            && (old'.Some? ==> TokensOf(s.exams, id) == {old'.value})
  {
    var i := IndexOf(s.exams, id);
    var (s', _) := Retokened(s, id, token);
    if i == |s.exams| {
      NoneToRemove(s.exams, id);
    } else {
      TokenOfOne(s.exams, i);
    }
    SwappedAt(s.exams, id, token, s'.exams);
  }

  // ---- The class --------------------------------------------------------------

  class ExamStoreMemory {
    var exams: seq<Exam>
    var seen: set<Token>
    var nextId: int
    var idem: map<Key, IdemEntry>

    ghost function State(): Store
      reads this
    {
      Store(exams, seen, nextId, idem)
    }

    constructor ()
      ensures State() == EMPTY
    {
      exams, seen, nextId, idem := [], {}, 1, map[];
    }

    method NextId() returns (id: int)
      modifies this
      ensures id == old(nextId) && State() == old(State()).(nextId := old(nextId) + 1)
    {
      id := nextId;
      nextId := nextId + 1;
    }

    method Add(e: Exam) returns (ok: bool)
      modifies this
      ensures (State(), ok) == Added(old(State()), e)
    {
      for i := 0 to |exams|
        invariant State() == old(State())
        invariant forall j :: 0 <= j < i ==> exams[j].token != e.token
      {
        if exams[i].token == e.token { return false; }
      }
      exams := exams + [e];
      ok := true;
    }

    method GetById(id: int) returns (e: Option<Exam>)
      ensures e == if IndexOf(exams, id) < |exams| then Some(exams[IndexOf(exams, id)]) else None
    {
      for i := 0 to |exams|
        invariant forall j :: 0 <= j < i ==> exams[j].id != id
      {
        if exams[i].id == id { return Some(exams[i]); }
      }
      return None;
    }

    method ClaimToken(token: Token) returns (ok: bool)
      modifies this
      ensures (State(), ok) == Claimed(old(State()), token)
    {
      if token in seen { return false; }
      for i := 0 to |exams|
        invariant State() == old(State())
        invariant forall j :: 0 <= j < i ==> exams[j].token != token
      {
        if exams[i].token == token { return false; }
      }
      seen := seen + {token};
      ok := true;
    }

    method ClaimTokenIfAbsent(token: Token, excludeId: int) returns (ok: bool)
      modifies this
      ensures (State(), ok) == ClaimedIfAbsent(old(State()), token, excludeId)
    {
      if token in seen { return false; }
      for i := 0 to |exams|
        invariant State() == old(State())
        invariant forall j :: 0 <= j < i && !(excludeId > 0 && exams[j].id == excludeId) ==> exams[j].token != token
      {
        if excludeId > 0 && exams[i].id == excludeId { continue; }
        if exams[i].token == token { return false; }
      }
      seen := seen + {token};
      ok := true;
    }

    method UnclaimToken(token: Token)
      modifies this
      ensures State() == Unclaimed(old(State()), token)
    {
      seen := seen - {token};
    }

    /** `update` with the mutator of the token actions. */
    method UpdateToken(id: int, token: Token) returns (oldToken: Option<Token>)
      modifies this
      ensures (State(), oldToken) == Retokened(old(State()), id, token)
      ensures DistinctIds(old(exams)) ==> exams == WithToken(old(exams), id, token) && seen == old(seen)
      ensures DistinctIds(old(exams)) && oldToken.Some? ==> TokensOf(old(exams), id) == {oldToken.value}
    {
      if DistinctIds(exams) { RetokenedSwaps(State(), id, token); }
      for i := 0 to |exams|
        invariant State() == old(State())
        invariant forall j :: 0 <= j < i ==> exams[j].id != id
      {
        if exams[i].id == id {
          oldToken := Some(exams[i].token);
          exams := exams[i := exams[i].(token := token, activeToken := token)];
          return;
        }
      }
      oldToken := None;
    }

    method Remove(id: int) returns (ok: bool)
      modifies this
      ensures (State(), ok) == Removed(old(State()), id)
      ensures DistinctIds(old(exams)) ==>
                && exams == Others(old(exams), id) && seen == old(seen) - TokensOf(old(exams), id)
                && (ok <==> HasId(old(exams), id))
    {
      if DistinctIds(exams) { RemovedTakesOut(State(), id); }
      for i := 0 to |exams|
        invariant State() == old(State())
        invariant forall j :: 0 <= j < i ==> exams[j].id != id
      {
        if exams[i].id == id {
          seen := seen - {exams[i].token};
          exams := exams[..i] + exams[i + 1..];
          return true;
        }
      }
      ok := false;
    }

    method ReserveIdempotency(key: Key, fingerprint: string) returns (r: Reservation)
      modifies this
      ensures (State(), r) == Reserved(old(State()), key, fingerprint)
    {
      if key in idem {
        var e := idem[key];
        if e.fingerprint == fingerprint && e.completed {
          return Replay(e.status, e.body, e.contentType);
        }
        return Conflict;
      }
      idem := idem[key := IdemEntry(fingerprint, false, 0, "", "")];
      r := New;
    }

    method FinalizeIdempotency(key: Key, fingerprint: string, status: int, body: string, contentType: string)
      modifies this
      ensures State() == Finalized(old(State()), key, fingerprint, status, body, contentType)
    {
      idem := idem[key := IdemEntry(fingerprint, true, status, body, contentType)];
    }

    method ReleaseIdempotency(key: Key)
      modifies this
      ensures State() == Released(old(State()), key)
    {
      idem := idem - {key};
    }
  }
}
