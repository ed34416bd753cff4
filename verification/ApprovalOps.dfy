/**
 The list of waiting approvals on the monitoring page: the difference between two lists as
 row operations (`static/js/pengawas-detail.js`) and their application to the table
 (`templates/admin/pengawas_detail.html`).

 A field that is missing is the empty string. The "No" column of a row is not modelled.
 */
module ApprovalOps {
  import opened Wrappers

  datatype Row = Row(mac: string, name: string, created: string)

  datatype Op = Remove(id: string) | Update(id: string, item: Row, index: nat) | Add(id: string, item: Row, index: nat)

  datatype Outcome = Same | ReplaceAll | Steps(ops: seq<Op>)

  /** Between the rows of a serialised list. */
  const SEPARATOR: char := '\U{0001}'

  /** Keys every JavaScript object has, and which a lookup in `{}` therefore finds. */
  const INHERITED: set<string> :=
    {"constructor", "toString", "toLocaleString", "valueOf", "hasOwnProperty", "isPrototypeOf", "propertyIsEnumerable",
     "__proto__", "__defineGetter__", "__defineSetter__", "__lookupGetter__", "__lookupSetter__"}

  // ---- Specification ----------------------------------------------------------

  function Fingerprint(r: Row): string {
    r.mac + "|" + r.name + "|" + r.created
  }

  function Fingerprints(list: seq<Row>): seq<string> {
    if list == [] then [] else [Fingerprint(list[0])] + Fingerprints(list[1..])
  }

  function Join(parts: seq<string>): string {
    if parts == [] then "" else if |parts| == 1 then parts[0] else parts[0] + [SEPARATOR] + Join(parts[1..])
  }

  function Serialize(list: seq<Row>): string {
    Join(Fingerprints(list))
  }

  predicate HasId(list: seq<Row>, id: string) {
    list != [] && (list[0].mac == id || HasId(list[1..], id))
  }

  /** The first row with the id. */
  function RowById(list: seq<Row>, id: string): Row
    requires HasId(list, id)
  {
    if list[0].mac == id then list[0] else RowById(list[1..], id)
  }

  predicate UsableIds(list: seq<Row>) {
    forall i :: 0 <= i < |list| ==> list[i].mac != "" && list[i].mac !in INHERITED
  }

  predicate DistinctIds(list: seq<Row>) {
    forall i, j :: 0 <= i < j < |list| ==> list[i].mac != list[j].mac
  }

  /** Rows that have gone, in the old order. */
  function Removes(prev: seq<Row>, next: seq<Row>): seq<Op> {
    if prev == [] then []
    else (if HasId(next, prev[0].mac) then [] else [Remove(prev[0].mac)]) + Removes(prev[1..], next)
  }

  predicate Changed(prev: seq<Row>, r: Row) {
    HasId(prev, r.mac) && Fingerprint(r) != Fingerprint(RowById(prev, r.mac))
  }

  /** Rows whose content changed, in the new order, from the given index on. */
  function Updates(prev: seq<Row>, next: seq<Row>, index: nat): seq<Op> {
    if next == [] then []
    else (if Changed(prev, next[0]) then [Update(next[0].mac, next[0], index)] else []) + Updates(prev, next[1..], index + 1)
  }

  function Adds(prev: seq<Row>, next: seq<Row>, index: nat): seq<Op> {
    if next == [] then []
    else (if HasId(prev, next[0].mac) then [] else [Add(next[0].mac, next[0], index)]) + Adds(prev, next[1..], index + 1)
  }

  function AllUpdates(next: seq<Row>, index: nat): seq<Op> {
    if next == [] then [] else [Update(next[0].mac, next[0], index)] + AllUpdates(next[1..], index + 1)
  }

  predicate Reordered(prev: seq<Row>, next: seq<Row>) {
    exists i :: 0 <= i < |next| && i < |prev| && prev[i].mac != next[i].mac
  }

  function RowOps(prev: seq<Row>, next: seq<Row>): seq<Op> {
    var ops := Removes(prev, next) + Updates(prev, next, 0) + Adds(prev, next, 0);
    if ops == [] && Reordered(prev, next) then AllUpdates(next, 0) else ops
  }

  function Compute(prev: seq<Row>, next: seq<Row>): Outcome {
    if Serialize(prev) == Serialize(next) then Same
    else if !(UsableIds(prev) && DistinctIds(prev) && UsableIds(next) && DistinctIds(next)) then ReplaceAll
    else Steps(RowOps(prev, next))
  }

  // ---- Applying ---------------------------------------------------------------

  function Delete(rows: seq<Row>, id: string): seq<Row> {
    if rows == [] then [] else if rows[0].mac == id then rows[1..] else [rows[0]] + Delete(rows[1..], id)
  }

  /** The new row takes the place of the first one with the id. */
  function Replace(rows: seq<Row>, id: string, item: Row): seq<Row> {
    if rows == [] then [] else if rows[0].mac == id then [item] + rows[1..] else [rows[0]] + Replace(rows[1..], id, item)
  }

  function Insert(rows: seq<Row>, index: nat, item: Row): seq<Row> {
    if index < |rows| then rows[..index] + [item] + rows[index..] else rows + [item]
  }

  function ApplyRemoves(rows: seq<Row>, ops: seq<Op>): seq<Row>
    decreases |ops|
  {
    if ops == [] then rows
    else ApplyRemoves(if ops[0].Remove? then Delete(rows, ops[0].id) else rows, ops[1..])
  }

  function ApplyChange(rows: seq<Row>, op: Op): seq<Row> {
    match op
    case Remove(_) => rows
    case Update(id, item, _) => Replace(rows, id, item)
    case Add(_, item, index) => Insert(rows, index, item)
  }

  function ApplyChanges(rows: seq<Row>, ops: seq<Op>): seq<Row>
    decreases |ops|
  {
    if ops == [] then rows else ApplyChanges(ApplyChange(rows, ops[0]), ops[1..])
  }

  /** Two passes over the operations: removals, then everything else. */
  function Apply(rows: seq<Row>, ops: seq<Op>): seq<Row> {
    ApplyChanges(ApplyRemoves(rows, ops), ops)
  }

  // ---- The loops --------------------------------------------------------------

  method SerializeApprovals(list: seq<Row>) returns (text: string)
    ensures text == Serialize(list)
  {
    var out: seq<string> := [];
    assert list[0..] == list;
    for i := 0 to |list|
      invariant out + Fingerprints(list[i..]) == Fingerprints(list)
    {
      assert list[i..][1..] == list[i + 1..];
      out := out + [Fingerprint(list[i])];
    }
    assert list[|list|..] == [];
    assert out == Fingerprints(list);
    text := Join(out);
  }

  lemma {:induction false} HasIdAt(list: seq<Row>, id: string)
    ensures HasId(list, id) <==> exists i :: 0 <= i < |list| && list[i].mac == id
  {
    if list != [] {
      HasIdAt(list[1..], id);
      if i :| 0 <= i < |list| && list[i].mac == id {
        if i > 0 { assert list[1..][i - 1].mac == id; }
      }
      if HasId(list[1..], id) {
        var i :| 0 <= i < |list[1..]| && list[1..][i].mac == id;
        assert list[i + 1].mac == id;
      }
    }
  }

  /** The keys of the lookup object filled so far. */
  method HasUniqueIds(list: seq<Row>) returns (ok: bool)
    ensures ok <==> UsableIds(list) && DistinctIds(list)
  {
    var seen: set<string> := {};
    for i := 0 to |list|
      invariant forall j :: 0 <= j < i ==> list[j].mac != "" && list[j].mac !in INHERITED
      invariant forall j, k :: 0 <= j < k < i ==> list[j].mac != list[k].mac
      invariant forall id :: id in seen <==> exists j :: 0 <= j < i && list[j].mac == id
    {
      var id := list[i].mac;
      if id == "" || id in INHERITED || id in seen {
        return false;
      }
      seen := seen + {id};
    }
    return true;
  }

  method IdsOf(list: seq<Row>) returns (ids: set<string>)
    ensures forall id :: id in ids <==> HasId(list, id)
  {
    ids := {};
    for i := 0 to |list|
      invariant forall id :: id in ids <==> exists j :: 0 <= j < i && list[j].mac == id
    {
      ids := ids + {list[i].mac};
    }
    forall id ensures id in ids <==> HasId(list, id) {
      HasIdAt(list, id);
    }
  }

  method FingerprintById(list: seq<Row>, id: string) returns (f: Option<string>)
    ensures f == if HasId(list, id) then Some(Fingerprint(RowById(list, id))) else None
  {
    assert list[0..] == list;
    for i := 0 to |list|
      invariant HasId(list, id) == HasId(list[i..], id)
      invariant HasId(list, id) ==> RowById(list, id) == RowById(list[i..], id)
    {
      assert list[i..][1..] == list[i + 1..];
      if list[i].mac == id {
        return Some(Fingerprint(list[i]));
      }
    }
    return None;
  }

  method FindRemoves(prev: seq<Row>, next: seq<Row>, nextIds: set<string>) returns (ops: seq<Op>)
    requires forall id :: id in nextIds <==> HasId(next, id)
    ensures ops == Removes(prev, next)
  {
    ops := [];
    assert prev[0..] == prev;
    for i := 0 to |prev|
      invariant ops + Removes(prev[i..], next) == Removes(prev, next)
    {
      assert prev[i..][1..] == prev[i + 1..];
      if prev[i].mac !in nextIds {
        ops := ops + [Remove(prev[i].mac)];
      }
    }
    assert prev[|prev|..] == [];
  }

  method FindUpdates(prev: seq<Row>, next: seq<Row>, prevIds: set<string>) returns (ops: seq<Op>)
    requires forall id :: id in prevIds <==> HasId(prev, id)
    ensures ops == Updates(prev, next, 0)
  {
    ops := [];
    assert next[0..] == next;
    for i := 0 to |next|
      invariant ops + Updates(prev, next[i..], i) == Updates(prev, next, 0)
    {
      assert next[i..][1..] == next[i + 1..];
      var it := next[i];
      if it.mac in prevIds {
        var before := FingerprintById(prev, it.mac);
        if before != Some(Fingerprint(it)) {
          ops := ops + [Update(it.mac, it, i)];
        }
      }
    }
    assert next[|next|..] == [];
  }

  method FindAdds(prev: seq<Row>, next: seq<Row>, prevIds: set<string>) returns (ops: seq<Op>)
    requires forall id :: id in prevIds <==> HasId(prev, id)
    ensures ops == Adds(prev, next, 0)
  {
    ops := [];
    assert next[0..] == next;
    for i := 0 to |next|
      invariant ops + Adds(prev, next[i..], i) == Adds(prev, next, 0)
    {
      assert next[i..][1..] == next[i + 1..];
      if next[i].mac !in prevIds {
        ops := ops + [Add(next[i].mac, next[i], i)];
      }
    }
    assert next[|next|..] == [];
  }

  method FindReorder(prev: seq<Row>, next: seq<Row>) returns (ops: seq<Op>)
    ensures ops == if Reordered(prev, next) then AllUpdates(next, 0) else []
  {
    var reordered := false;
    for i := 0 to |next|
      invariant reordered <==> exists j :: 0 <= j < i && j < |prev| && prev[j].mac != next[j].mac
    {
      if i < |prev| && prev[i].mac != next[i].mac {
        reordered := true;
      }
    }
    ops := [];
    if reordered {
      assert next[0..] == next;
      for i := 0 to |next|
        invariant ops + AllUpdates(next[i..], i) == AllUpdates(next, 0)
      {
        assert next[i..][1..] == next[i + 1..];
        ops := ops + [Update(next[i].mac, next[i], i)];
      }
      assert next[|next|..] == [];
    }
  }

  method ComputeApprovalRowOps(prev: seq<Row>, next: seq<Row>) returns (r: Outcome)
    ensures r == Compute(prev, next)
  {
    var a := SerializeApprovals(prev);
    var b := SerializeApprovals(next);
    if a == b {
      return Same;
    }
    var okPrev := HasUniqueIds(prev);
    var okNext := HasUniqueIds(next);
    if !okPrev || !okNext {
      return ReplaceAll;
    }
    var prevIds := IdsOf(prev);
    var nextIds := IdsOf(next);
    var removes := FindRemoves(prev, next, nextIds);
    var updates := FindUpdates(prev, next, prevIds);
    var adds := FindAdds(prev, next, prevIds);
    var ops := removes + updates + adds;
    if ops == [] {
      ops := FindReorder(prev, next);
    }
    return Steps(ops);
  }

  /** The rows of the table, changed operation by operation. */
  method ApplyApprovalRowOps(table: seq<Row>, ops: seq<Op>) returns (rows: seq<Row>)
    ensures rows == Apply(table, ops)
  {
    rows := table;
    assert ops[0..] == ops;
    for i := 0 to |ops|
      invariant ApplyRemoves(rows, ops[i..]) == ApplyRemoves(table, ops)
    {
      assert ops[i..][1..] == ops[i + 1..];
      if ops[i].Remove? {
        rows := Delete(rows, ops[i].id);
      }
    }
    assert ops[|ops|..] == [];
    for i := 0 to |ops|
      invariant ApplyChanges(rows, ops[i..]) == Apply(table, ops)
    {
      assert ops[i..][1..] == ops[i + 1..];
      rows := ApplyChange(rows, ops[i]);
    }
  }
}
