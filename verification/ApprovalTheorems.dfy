/**
 When applying the computed row operations turns the table of the old list into that of the
 new one.
 */
module ApprovalTheorems {
  import opened ApprovalOps

  // ---- Same -------------------------------------------------------------------

  predicate NoSeparator(s: string) {
    forall i :: 0 <= i < |s| ==> s[i] != SEPARATOR
  }

  predicate CleanRows(list: seq<Row>) {
    forall i :: 0 <= i < |list| ==> NoSeparator(list[i].mac) && NoSeparator(list[i].name) && NoSeparator(list[i].created)
  }

  predicate CleanParts(parts: seq<string>) {
    forall i :: 0 <= i < |parts| ==> parts[i] != "" && NoSeparator(parts[i])
  }

  /** Two texts that agree up to their first separators agree there. */
  lemma FirstPart(a: string, x: string, b: string, y: string)
    requires NoSeparator(a) && NoSeparator(b)
    requires (x == "" || x[0] == SEPARATOR) && (y == "" || y[0] == SEPARATOR)
    requires a + x == b + y
    ensures a == b && x == y
  {
    assert forall i :: 0 <= i < |a| ==> (a + x)[i] == a[i];
    assert forall i :: 0 <= i < |b| ==> (b + y)[i] == b[i];
    assert x != "" ==> (a + x)[|a|] == SEPARATOR;
    assert y != "" ==> (b + y)[|b|] == SEPARATOR;
    assert a == (a + x)[..|a|] && b == (b + y)[..|b|];
    assert x == (a + x)[|a|..] && y == (b + y)[|b|..];
  }

  function JoinRest(parts: seq<string>): string {
    if parts == [] then "" else [SEPARATOR] + Join(parts)
  }

  lemma JoinHead(parts: seq<string>)
    requires parts != []
    ensures Join(parts) == parts[0] + JoinRest(parts[1..])
  {
    if |parts| > 1 {
      assert parts[0] + [SEPARATOR] + Join(parts[1..]) == parts[0] + ([SEPARATOR] + Join(parts[1..]));
    }
  }

  lemma {:induction false} JoinInjective(a: seq<string>, b: seq<string>)
    requires CleanParts(a) && CleanParts(b) && Join(a) == Join(b)
    ensures a == b
    decreases |a|, 0
  {
    if a != [] { JoinHead(a); }
    if b != [] { JoinHead(b); }
    if a != [] && b != [] {
      FirstPart(a[0], JoinRest(a[1..]), b[0], JoinRest(b[1..]));
      RestInjective(a[1..], b[1..]);
      assert a == [a[0]] + a[1..] && b == [b[0]] + b[1..];
    }
  }

  lemma {:induction false} RestInjective(a: seq<string>, b: seq<string>)
    requires CleanParts(a) && CleanParts(b) && JoinRest(a) == JoinRest(b)
    ensures a == b
    decreases |a|, 1
  {
    if a != [] && b != [] {
      assert JoinRest(a)[1..] == Join(a) && JoinRest(b)[1..] == Join(b);
      JoinInjective(a, b);
    }
  }

  lemma {:induction false} CleanFingerprints(list: seq<Row>)
    requires CleanRows(list)
    ensures CleanParts(Fingerprints(list))
  {
    if list != [] {
      CleanFingerprints(list[1..]);
    }
  }

  /** Nothing is done exactly when the table already shows the new list, for lists without
      the separator in any field. */
  lemma SameMeansEqual(prev: seq<Row>, next: seq<Row>)
    requires CleanRows(prev) && CleanRows(next)
    ensures Compute(prev, next) == Same <==> Fingerprints(prev) == Fingerprints(next)
  {
    CleanFingerprints(prev);
    CleanFingerprints(next);
    if Serialize(prev) == Serialize(next) {
      JoinInjective(Fingerprints(prev), Fingerprints(next));
    }
  }

  // ---- What a table shows -----------------------------------------------------

  /** The id a row is found by, and what is displayed. */
  function Look(r: Row): (string, string) {
    (r.mac, Fingerprint(r))
  }

  function Looks(list: seq<Row>): (r: seq<(string, string)>)
    ensures |r| == |list|
  {
    if list == [] then [] else [Look(list[0])] + Looks(list[1..])
  }

  function Ids(list: seq<Row>): (r: seq<string>)
    ensures |r| == |list|
  {
    if list == [] then [] else [list[0].mac] + Ids(list[1..])
  }

  /** The rows whose id is also in the other list. */
  function Shared(list: seq<Row>, other: seq<Row>): seq<Row> {
    if list == [] then []
    else (if HasId(other, list[0].mac) then [list[0]] else []) + Shared(list[1..], other)
  }

  /** The rows in both lists come in the same order. */
  predicate SameOrder(prev: seq<Row>, next: seq<Row>) {
    Ids(Shared(prev, next)) == Ids(Shared(next, prev))
  }

  predicate Distinct(list: seq<Row>) {
    list == [] || (!HasId(list[1..], list[0].mac) && Distinct(list[1..]))
  }

  lemma {:induction false} DistinctFrom(list: seq<Row>)
    requires DistinctIds(list)
    ensures Distinct(list)
  {
    if list != [] {
      HasIdAt(list[1..], list[0].mac);
      assert forall i :: 0 <= i < |list[1..]| ==> list[1..][i].mac == list[i + 1].mac;
      DistinctFrom(list[1..]);
    }
  }

  // ---- Removals ---------------------------------------------------------------

  lemma {:induction false} DeleteAfter(a: seq<Row>, b: seq<Row>, id: string)
    requires !HasId(a, id)
    ensures Delete(a + b, id) == a + Delete(b, id)
  {
    if a == [] {
      assert a + b == b && a + Delete(b, id) == Delete(b, id);
    } else {
      assert (a + b)[1..] == a[1..] + b;
      DeleteAfter(a[1..], b, id);
      assert [a[0]] + (a[1..] + Delete(b, id)) == a + Delete(b, id);
    }
  }

  /** What is not in the other list does not get into the shared rows. */
  lemma {:induction false} SharedHas(list: seq<Row>, other: seq<Row>, id: string)
    ensures HasId(Shared(list, other), id) <==> HasId(list, id) && HasId(other, id)
  {
    if list != [] {
      SharedHas(list[1..], other, id);
      var head := if HasId(other, list[0].mac) then [list[0]] else [];
      assert (head + Shared(list[1..], other))[|head|..] == Shared(list[1..], other);
    }
  }

  lemma RemoveHead(kept: seq<Row>, rest: seq<Row>)
    requires rest != [] && !HasId(kept, rest[0].mac)
    ensures Delete(kept + rest, rest[0].mac) == kept + rest[1..]
  {
    DeleteAfter(kept, rest, rest[0].mac);
  }

  lemma {:induction false} RemovesApplied(kept: seq<Row>, rest: seq<Row>, next: seq<Row>)
    requires Distinct(rest) && forall r :: r in kept ==> HasId(next, r.mac)
    ensures ApplyRemoves(kept + rest, Removes(rest, next)) == kept + Shared(rest, next)
    decreases |rest|
  {
    if rest == [] {
      assert kept + rest == kept && kept + Shared(rest, next) == kept;
    } else if HasId(next, rest[0].mac) {
      var longer := kept + [rest[0]];
      assert kept + rest == longer + rest[1..];
      assert [] + Removes(rest[1..], next) == Removes(rest[1..], next);
      RemovesApplied(longer, rest[1..], next);
      assert longer + Shared(rest[1..], next) == kept + Shared(rest, next);
    } else {
      var op, ops := Remove(rest[0].mac), Removes(rest[1..], next);
      assert ([op] + ops)[0] == op && ([op] + ops)[1..] == ops;
      HasIdAt(kept, rest[0].mac);
      RemoveHead(kept, rest);
      RemovesApplied(kept, rest[1..], next);
      assert Shared(rest, next) == Shared(rest[1..], next);
    }
  }

  // ---- Only the right operations matter in each pass --------------------------

  predicate IsRemoves(ops: seq<Op>) {
    forall i :: 0 <= i < |ops| ==> ops[i].Remove?
  }

  predicate HasNoRemoves(ops: seq<Op>) {
    forall i :: 0 <= i < |ops| ==> !ops[i].Remove?
  }

  lemma {:induction false} RemovesSkip(rows: seq<Row>, a: seq<Op>, b: seq<Op>)
    requires HasNoRemoves(b)
    ensures ApplyRemoves(rows, a + b) == ApplyRemoves(rows, a)
    decreases |a| + |b|
  {
    if a != [] {
      assert (a + b)[1..] == a[1..] + b;
      RemovesSkip(if a[0].Remove? then Delete(rows, a[0].id) else rows, a[1..], b);
    } else if b != [] {
      assert a + b == b && [] + b[1..] == b[1..];
      RemovesSkip(rows, [], b[1..]);
    } else {
      assert a + b == a;
    }
  }

  lemma {:induction false} ChangesSkip(rows: seq<Row>, a: seq<Op>, b: seq<Op>)
    requires IsRemoves(a)
    ensures ApplyChanges(rows, a + b) == ApplyChanges(rows, b)
    decreases |a|
  {
    if a == [] {
      assert a + b == b;
    } else {
      assert (a + b)[1..] == a[1..] + b;
      ChangesSkip(rows, a[1..], b);
    }
  }

  lemma {:induction false} ChangesConcat(rows: seq<Row>, a: seq<Op>, b: seq<Op>)
    ensures ApplyChanges(rows, a + b) == ApplyChanges(ApplyChanges(rows, a), b)
    decreases |a|
  {
    if a == [] {
      assert a + b == b;
    } else {
      assert (a + b)[1..] == a[1..] + b;
      ChangesConcat(ApplyChange(rows, a[0]), a[1..], b);
    }
  }

  // ---- Updates ----------------------------------------------------------------

  /** The new version of a row, if its content changed. */
  function Refreshed(r: Row, prev: seq<Row>, next: seq<Row>): Row {
    if HasId(next, r.mac) && Changed(prev, RowById(next, r.mac)) then RowById(next, r.mac) else r
  }

  function Refresh(rows: seq<Row>, prev: seq<Row>, next: seq<Row>): seq<Row> {
    if rows == [] then [] else [Refreshed(rows[0], prev, next)] + Refresh(rows[1..], prev, next)
  }

  lemma {:induction false} RowByIdHasId(list: seq<Row>, id: string)
    requires HasId(list, id)
    ensures RowById(list, id).mac == id
  {
    if list[0].mac != id {
      RowByIdHasId(list[1..], id);
    }
  }

  lemma {:induction false} RefreshNothing(rows: seq<Row>, prev: seq<Row>)
    ensures Refresh(rows, prev, []) == rows
  {
    if rows != [] {
      RefreshNothing(rows[1..], prev);
    }
  }

  /** Rows other than the first of the new list are refreshed from the others. */
  lemma {:induction false} RefreshOthers(rows: seq<Row>, prev: seq<Row>, next: seq<Row>)
    requires next != [] && (!HasId(rows, next[0].mac) || !Changed(prev, next[0])) && Distinct(next)
    ensures Refresh(rows, prev, next) == Refresh(rows, prev, next[1..])
  {
    if rows != [] {
      RefreshOthers(rows[1..], prev, next);
    }
  }

  lemma {:induction false} ReplaceThenRefresh(rows: seq<Row>, prev: seq<Row>, next: seq<Row>)
    requires next != [] && Changed(prev, next[0]) && Distinct(next) && Distinct(rows)
    ensures Refresh(Replace(rows, next[0].mac, next[0]), prev, next[1..]) == Refresh(rows, prev, next)
  {
    if rows != [] {
      if rows[0].mac == next[0].mac {
        RefreshOthers(rows[1..], prev, next);
        assert ([next[0]] + rows[1..])[1..] == rows[1..];
      } else {
        ReplaceThenRefresh(rows[1..], prev, next);
        var tail := Replace(rows[1..], next[0].mac, next[0]);
        assert ([rows[0]] + tail)[1..] == tail;
      }
    }
  }

  lemma {:induction false} ReplaceKeepsIds(rows: seq<Row>, item: Row)
    ensures Ids(Replace(rows, item.mac, item)) == Ids(rows)
    ensures forall id :: HasId(Replace(rows, item.mac, item), id) == HasId(rows, id)
    ensures Distinct(rows) ==> Distinct(Replace(rows, item.mac, item))
  {
    if rows != [] {
      ReplaceKeepsIds(rows[1..], item);
      var tail := if rows[0].mac == item.mac then rows[1..] else Replace(rows[1..], item.mac, item);
      var head := if rows[0].mac == item.mac then item else rows[0];
      assert Replace(rows, item.mac, item) == [head] + tail && ([head] + tail)[1..] == tail;
    }
  }

  lemma {:induction false} UpdatesApplied(rows: seq<Row>, prev: seq<Row>, next: seq<Row>, index: nat)
    requires Distinct(next) && Distinct(rows)
    ensures ApplyChanges(rows, Updates(prev, next, index)) == Refresh(rows, prev, next)
    decreases |next|
  {
    if next == [] {
      RefreshNothing(rows, prev);
    } else {
      var ops := Updates(prev, next[1..], index + 1);
      if Changed(prev, next[0]) {
        var op := Update(next[0].mac, next[0], index);
        assert ([op] + ops)[1..] == ops;
        ReplaceKeepsIds(rows, next[0]);
        UpdatesApplied(Replace(rows, next[0].mac, next[0]), prev, next[1..], index + 1);
        ReplaceThenRefresh(rows, prev, next);
      } else {
        assert [] + ops == ops;
        UpdatesApplied(rows, prev, next[1..], index + 1);
        RefreshOthers(rows, prev, next);
      }
    }
  }

  // ---- The shared rows after the updates --------------------------------------

  predicate AllHave(ids: seq<string>, list: seq<Row>) {
    forall i :: 0 <= i < |ids| ==> HasId(list, ids[i])
  }

  /** What the list shows for each id. */
  function LooksOf(ids: seq<string>, list: seq<Row>): seq<(string, string)>
    requires AllHave(ids, list)
  {
    if ids == [] then []
    else
      assert HasId(list, ids[0]);
      [Look(RowById(list, ids[0]))] + LooksOf(ids[1..], list)
  }

  lemma {:induction false} SharedIds(list: seq<Row>, other: seq<Row>)
    ensures AllHave(Ids(Shared(list, other)), other)
  {
    if list != [] {
      SharedIds(list[1..], other);
      if HasId(other, list[0].mac) {
        assert ([list[0]] + Shared(list[1..], other))[1..] == Shared(list[1..], other);
      } else {
        assert [] + Shared(list[1..], other) == Shared(list[1..], other);
      }
    }
  }

  /** The first row with an id that is met is the row itself. */
  predicate Represents(whole: seq<Row>, part: seq<Row>) {
    forall i :: 0 <= i < |part| ==> HasId(whole, part[i].mac) && RowById(whole, part[i].mac) == part[i]
  }

  lemma {:induction false} DistinctRepresents(list: seq<Row>)
    requires Distinct(list)
    ensures Represents(list, list)
  {
    if list != [] {
      DistinctRepresents(list[1..]);
      forall i | 0 <= i < |list| ensures HasId(list, list[i].mac) && RowById(list, list[i].mac) == list[i] {
        if i > 0 {
          assert list[1..][i - 1] == list[i];
          HasIdAt(list[1..], list[0].mac);
        }
      }
    }
  }

  lemma {:induction false} SharedRepresents(whole: seq<Row>, list: seq<Row>, other: seq<Row>)
    requires Represents(whole, list)
    ensures Represents(whole, Shared(list, other))
  {
    if list != [] {
      SharedRepresents(whole, list[1..], other);
    }
  }

  lemma {:induction false} RefreshLooks(rows: seq<Row>, prev: seq<Row>, next: seq<Row>)
    requires Represents(prev, rows) && AllHave(Ids(rows), next)
    ensures Looks(Refresh(rows, prev, next)) == LooksOf(Ids(rows), next)
    ensures Ids(Refresh(rows, prev, next)) == Ids(rows)
  {
    if rows != [] {
      var r, tail := rows[0], Refresh(rows[1..], prev, next);
      assert HasId(next, Ids(rows)[0]) && Ids(rows)[1..] == Ids(rows[1..]);
      assert RowById(prev, r.mac) == r;
      RowByIdHasId(next, r.mac);
      RefreshLooks(rows[1..], prev, next);
      assert ([Refreshed(r, prev, next)] + tail)[1..] == tail;
    }
  }

  lemma {:induction false} LooksAreOf(rows: seq<Row>, whole: seq<Row>)
    requires Represents(whole, rows)
    ensures AllHave(Ids(rows), whole) && Looks(rows) == LooksOf(Ids(rows), whole)
  {
    if rows != [] {
      LooksAreOf(rows[1..], whole);
      assert Ids(rows)[1..] == Ids(rows[1..]);
    }
  }

  // ---- Additions --------------------------------------------------------------

  lemma {:induction false} LooksConcat(a: seq<Row>, b: seq<Row>)
    ensures Looks(a + b) == Looks(a) + Looks(b)
  {
    if a == [] {
      assert a + b == b;
    } else {
      assert (a + b)[1..] == a[1..] + b;
      LooksConcat(a[1..], b);
    }
  }

  lemma {:induction false} LooksAt(a: seq<Row>, i: nat)
    requires i <= |a|
    ensures Looks(a[..i]) == Looks(a)[..i] && Looks(a[i..]) == Looks(a)[i..]
  {
    assert a == a[..i] + a[i..];
    LooksConcat(a[..i], a[i..]);
  }

  lemma InsertLooks(rows: seq<Row>, done: seq<Row>, rest: seq<Row>, item: Row)
    requires Looks(rows) == Looks(done) + Looks(rest)
    ensures Looks(Insert(rows, |done|, item)) == Looks(done + [item]) + Looks(rest)
  {
    var n := |done|;
    assert |rows| == |Looks(rows)|;
    LooksAt(rows, n);
    LooksConcat(done, [item]);
    if n < |rows| {
      LooksConcat(rows[..n], [item]);
      LooksConcat(rows[..n] + [item], rows[n..]);
    } else {
      LooksConcat(rows, [item]);
      assert Looks(rest) == [] && rows[..n] == rows;
    }
  }

  lemma {:induction false} AddsApplied(rows: seq<Row>, prev: seq<Row>, done: seq<Row>, rest: seq<Row>)
    requires Looks(rows) == Looks(done) + Looks(Shared(rest, prev))
    ensures Looks(ApplyChanges(rows, Adds(prev, rest, |done|))) == Looks(done + rest)
    decreases |rest|
  {
    if rest == [] {
      assert done + rest == done && Looks(done) + [] == Looks(done);
    } else {
      var longer, ops := done + [rest[0]], Adds(prev, rest[1..], |done| + 1);
      assert longer + rest[1..] == done + rest;
      if HasId(prev, rest[0].mac) {
        assert [] + ops == ops;
        LooksConcat(done, [rest[0]]);
        LooksConcat([rest[0]], Shared(rest[1..], prev));
        AddsApplied(rows, prev, longer, rest[1..]);
      } else {
        var op := Add(rest[0].mac, rest[0], |done|);
        assert ([op] + ops)[1..] == ops;
        assert [] + Shared(rest[1..], prev) == Shared(rest[1..], prev);
        InsertLooks(rows, done, Shared(rest[1..], prev), rest[0]);
        AddsApplied(Insert(rows, |done|, rest[0]), prev, longer, rest[1..]);
      }
    }
  }

  // ---- Order is kept ----------------------------------------------------------

  lemma {:induction false} SharedConcat(a: seq<Row>, b: seq<Row>, other: seq<Row>)
    ensures Shared(a + b, other) == Shared(a, other) + Shared(b, other)
  {
    if a == [] {
      assert a + b == b;
    } else {
      assert (a + b)[0] == a[0] && (a + b)[1..] == a[1..] + b;
      SharedConcat(a[1..], b, other);
      SharedHead(a, other);
      SharedHead(a + b, other);
      var head := if HasId(other, a[0].mac) then [a[0]] else [];
      assert head + (Shared(a[1..], other) + Shared(b, other)) == head + Shared(a[1..], other) + Shared(b, other);
    }
  }

  lemma SharedHead(a: seq<Row>, other: seq<Row>)
    requires a != []
    ensures Shared(a, other) == (if HasId(other, a[0].mac) then [a[0]] else []) + Shared(a[1..], other)
  {
  }

  lemma InsertKeepsShared(rows: seq<Row>, index: nat, item: Row, prev: seq<Row>)
    requires !HasId(prev, item.mac)
    ensures Shared(Insert(rows, index, item), prev) == Shared(rows, prev)
  {
    assert [item][1..] == [];
    assert Shared([item], prev) == [];
    if index < |rows| {
      SharedConcat(rows[..index], [item], prev);
      SharedConcat(rows[..index] + [item], rows[index..], prev);
      SharedConcat(rows[..index], rows[index..], prev);
      assert rows[..index] + rows[index..] == rows;
    } else {
      SharedConcat(rows, [item], prev);
    }
  }

  lemma {:induction false} AddsKeepShared(rows: seq<Row>, prev: seq<Row>, next: seq<Row>, index: nat)
    ensures Shared(ApplyChanges(rows, Adds(prev, next, index)), prev) == Shared(rows, prev)
    decreases |next|
  {
    if next != [] {
      var ops := Adds(prev, next[1..], index + 1);
      if HasId(prev, next[0].mac) {
        assert [] + ops == ops;
        AddsKeepShared(rows, prev, next[1..], index + 1);
      } else {
        var op := Add(next[0].mac, next[0], index);
        assert ([op] + ops)[1..] == ops;
        InsertKeepsShared(rows, index, next[0], prev);
        AddsKeepShared(Insert(rows, index, next[0]), prev, next[1..], index + 1);
      }
    }
  }

  lemma {:induction false} SharedByIds(a: seq<Row>, b: seq<Row>, other: seq<Row>)
    requires Ids(a) == Ids(b)
    ensures Ids(Shared(a, other)) == Ids(Shared(b, other))
  {
    if a != [] {
      assert Ids(a)[0] == Ids(b)[0] && Ids(a)[1..] == Ids(b)[1..];
      assert Ids(a)[1..] == Ids(a[1..]) && Ids(b)[1..] == Ids(b[1..]);
      SharedByIds(a[1..], b[1..], other);
      IdsOfHead(if HasId(other, a[0].mac) then [a[0]] else [], Shared(a[1..], other));
      IdsOfHead(if HasId(other, b[0].mac) then [b[0]] else [], Shared(b[1..], other));
    }
  }

  lemma IdsOfHead(head: seq<Row>, tail: seq<Row>)
    requires |head| <= 1
    ensures Ids(head + tail) == Ids(head) + Ids(tail)
  {
    if head == [] {
      assert head + tail == tail;
    } else {
      assert (head + tail)[1..] == tail && head[1..] == [];
    }
  }

  lemma {:induction false} LooksGiveIds(a: seq<Row>, b: seq<Row>)
    requires Looks(a) == Looks(b)
    ensures Ids(a) == Ids(b)
  {
    assert |a| == |b|;
    if a != [] {
      assert Looks(a)[0] == Looks(b)[0];
      assert Looks(a)[1..] == Looks(b)[1..];
      LooksGiveIds(a[1..], b[1..]);
    }
  }

  lemma {:induction false} SharedAll(list: seq<Row>, other: seq<Row>)
    requires AllHave(Ids(list), other)
    ensures Shared(list, other) == list
  {
    if list != [] {
      assert HasId(other, Ids(list)[0]) && Ids(list)[1..] == Ids(list[1..]);
      SharedAll(list[1..], other);
    }
  }

  // ---- Main result ------------------------------------------------------------

  lemma {:induction false} OpKinds(prev: seq<Row>, next: seq<Row>, index: nat)
    ensures HasNoRemoves(Updates(prev, next, index)) && HasNoRemoves(Adds(prev, next, index))
    ensures HasNoRemoves(AllUpdates(next, index))
  {
    if next != [] {
      OpKinds(prev, next[1..], index + 1);
    }
  }

  lemma {:induction false} RemovesAreRemoves(prev: seq<Row>, next: seq<Row>)
    ensures IsRemoves(Removes(prev, next))
  {
    if prev != [] {
      RemovesAreRemoves(prev[1..], next);
    }
  }

  lemma FirstPass(prev: seq<Row>, next: seq<Row>, rest: seq<Op>)
    requires Distinct(prev) && HasNoRemoves(rest)
    ensures ApplyRemoves(prev, Removes(prev, next) + rest) == Shared(prev, next)
  {
    RemovesSkip(prev, Removes(prev, next), rest);
    assert [] + prev == prev && [] + Shared(prev, next) == Shared(prev, next);
    RemovesApplied([], prev, next);
  }

  lemma SecondPass(rows: seq<Row>, prev: seq<Row>, next: seq<Row>, adds: seq<Op>)
    requires Distinct(rows) && Distinct(next)
    ensures ApplyChanges(rows, Removes(prev, next) + (Updates(prev, next, 0) + adds))
            == ApplyChanges(Refresh(rows, prev, next), adds)
  {
    RemovesAreRemoves(prev, next);
    ChangesSkip(rows, Removes(prev, next), Updates(prev, next, 0) + adds);
    ChangesConcat(rows, Updates(prev, next, 0), adds);
    UpdatesApplied(rows, prev, next, 0);
  }

  /** The three groups of operations, applied one after the other. */
  lemma InThreeSteps(prev: seq<Row>, next: seq<Row>)
    requires Distinct(prev) && Distinct(next)
    ensures Apply(prev, Removes(prev, next) + Updates(prev, next, 0) + Adds(prev, next, 0))
            == ApplyChanges(Refresh(Shared(prev, next), prev, next), Adds(prev, next, 0))
  {
    var r, u, a := Removes(prev, next), Updates(prev, next, 0), Adds(prev, next, 0);
    assert r + u + a == r + (u + a);
    OpKinds(prev, next, 0);
    FirstPass(prev, next, u + a);
    DistinctShared(prev, next);
    SecondPass(Shared(prev, next), prev, next, a);
  }

  lemma {:induction false} DistinctShared(list: seq<Row>, other: seq<Row>)
    requires Distinct(list)
    ensures Distinct(Shared(list, other))
  {
    if list != [] {
      DistinctShared(list[1..], other);
      SharedHas(list[1..], other, list[0].mac);
      var tail := Shared(list[1..], other);
      if HasId(other, list[0].mac) {
        assert ([list[0]] + tail)[1..] == tail;
      } else {
        assert [] + tail == tail;
      }
    }
  }

  /** The refreshed rows show, for each id, what the new list shows. */
  lemma RefreshedShared(prev: seq<Row>, next: seq<Row>)
    requires Distinct(prev) && Distinct(next)
    ensures AllHave(Ids(Shared(prev, next)), next)
    ensures var u := Refresh(Shared(prev, next), prev, next);
            Ids(u) == Ids(Shared(prev, next)) && Looks(u) == LooksOf(Ids(Shared(prev, next)), next)
  {
    SharedIds(prev, next);
    DistinctRepresents(prev);
    SharedRepresents(prev, prev, next);
    RefreshLooks(Shared(prev, next), prev, next);
  }

  /** If the rows in both lists keep their order, the table shows the new list. */
  lemma SameOrderSuffices(prev: seq<Row>, next: seq<Row>)
    requires Distinct(prev) && Distinct(next) && SameOrder(prev, next)
    ensures Looks(ApplyChanges(Refresh(Shared(prev, next), prev, next), Adds(prev, next, 0))) == Looks(next)
  {
    RefreshedShared(prev, next);
    DistinctRepresents(next);
    SharedRepresents(next, next, prev);
    LooksAreOf(Shared(next, prev), next);
    assert Looks([]) + Looks(Shared(next, prev)) == Looks(Shared(next, prev));
    assert [] + next == next;
    AddsApplied(Refresh(Shared(prev, next), prev, next), prev, [], next);
  }

  /** Otherwise it does not: operations never change the order of rows that stay. */
  lemma SameOrderIsNeeded(prev: seq<Row>, next: seq<Row>)
    requires Distinct(prev) && Distinct(next)
    requires Looks(ApplyChanges(Refresh(Shared(prev, next), prev, next), Adds(prev, next, 0))) == Looks(next)
    ensures SameOrder(prev, next)
  {
    var u := Refresh(Shared(prev, next), prev, next);
    var rows := ApplyChanges(u, Adds(prev, next, 0));
    LooksGiveIds(rows, next);
    SharedByIds(rows, next, prev);
    AddsKeepShared(u, prev, next, 0);
    RefreshedShared(prev, next);
    OldIds(prev, prev, next);
    SharedAll(u, prev);
  }

  lemma {:induction false} OldIds(whole: seq<Row>, list: seq<Row>, other: seq<Row>)
    requires forall i :: 0 <= i < |list| ==> list[i] in whole
    ensures AllHave(Ids(Shared(list, other)), whole)
  {
    if list != [] {
      assert list[0] in whole;
      HasIdAt(whole, list[0].mac);
      OldIds(whole, list[1..], other);
      IdsOfHead(if HasId(other, list[0].mac) then [list[0]] else [], Shared(list[1..], other));
    }
  }

  lemma {:induction false} NoRemovesNeeded(prev: seq<Row>, next: seq<Row>)
    requires Removes(prev, next) == []
    ensures Shared(prev, next) == prev
  {
    if prev != [] {
      NoRemovesNeeded(prev[1..], next);
    }
  }

  lemma {:induction false} NoAddsNeeded(prev: seq<Row>, next: seq<Row>, index: nat)
    requires Adds(prev, next, index) == []
    ensures Shared(next, prev) == next
    decreases |next|
  {
    if next != [] {
      NoAddsNeeded(prev, next[1..], index + 1);
    }
  }

  lemma {:induction false} AllUpdatesKeepIds(rows: seq<Row>, next: seq<Row>, index: nat)
    ensures Ids(ApplyChanges(rows, AllUpdates(next, index))) == Ids(rows)
    decreases |next|
  {
    if next != [] {
      var op, ops := Update(next[0].mac, next[0], index), AllUpdates(next[1..], index + 1);
      assert ([op] + ops)[1..] == ops;
      ReplaceKeepsIds(rows, next[0]);
      AllUpdatesKeepIds(Replace(rows, next[0].mac, next[0]), next[1..], index + 1);
    }
  }

  lemma {:induction false} IdAt(list: seq<Row>, i: nat)
    requires i < |list|
    ensures Ids(list)[i] == list[i].mac
  {
    if i > 0 {
      IdAt(list[1..], i - 1);
    }
  }

  /** The updates sent for a mere reordering leave the order as it was. */
  lemma ReorderingIsNotShown(prev: seq<Row>, next: seq<Row>)
    requires Removes(prev, next) + Updates(prev, next, 0) + Adds(prev, next, 0) == [] && Reordered(prev, next)
    ensures Looks(Apply(prev, AllUpdates(next, 0))) != Looks(next) && !SameOrder(prev, next)
  {
    var i :| 0 <= i < |next| && i < |prev| && prev[i].mac != next[i].mac;
    IdAt(prev, i);
    IdAt(next, i);
    assert Ids(prev) != Ids(next);
    NoRemovesNeeded(prev, next);
    NoAddsNeeded(prev, next, 0);
    OpKinds(prev, next, 0);
    assert [] + AllUpdates(next, 0) == AllUpdates(next, 0);
    RemovesSkip(prev, [], AllUpdates(next, 0));
    AllUpdatesKeepIds(prev, next, 0);
    if Looks(Apply(prev, AllUpdates(next, 0))) == Looks(next) {
      LooksGiveIds(Apply(prev, AllUpdates(next, 0)), next);
    }
  }

  /** Applying the operations to the table of the old list gives the table of the new one
      exactly when the rows in both lists come in the same order. */
  lemma StepsShowTheNewList(prev: seq<Row>, next: seq<Row>)
    requires Compute(prev, next).Steps?
    ensures Looks(Apply(prev, Compute(prev, next).ops)) == Looks(next) <==> SameOrder(prev, next)
  {
    DistinctFrom(prev);
    DistinctFrom(next);
    if Removes(prev, next) + Updates(prev, next, 0) + Adds(prev, next, 0) == [] && Reordered(prev, next) {
      ReorderingIsNotShown(prev, next);
    } else {
      InThreeSteps(prev, next);
      if SameOrder(prev, next) {
        SameOrderSuffices(prev, next);
      } else if Looks(Apply(prev, Compute(prev, next).ops)) == Looks(next) {
        SameOrderIsNeeded(prev, next);
      }
    }
  }
}
