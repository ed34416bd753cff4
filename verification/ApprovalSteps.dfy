/**
 Which operations the difference of two approval lists consists of: none that is not needed.
 */
module ApprovalSteps {
  import opened ApprovalOps

  predicate IsListed(list: seq<Row>, id: string) {
    exists i :: 0 <= i < |list| && list[i].mac == id
  }

  /** What the page compares of a row. */
  function Content(r: Row): string {
    r.mac + "|" + r.name + "|" + r.created
  }

  /** A row of the list has the id and another content. */
  predicate IsOutdated(list: seq<Row>, r: Row) {
    exists i :: 0 <= i < |list| && list[i].mac == r.mac && Content(list[i]) != Content(r)
  }

  /** The row of the new list at the position. */
  predicate IsRowAt(list: seq<Row>, id: string, item: Row, index: nat) {
    index < |list| && list[index] == item && id == item.mac
  }

  /** The same rows with the same contents, in any order. */
  ghost predicate SameRows(prev: seq<Row>, next: seq<Row>) {
    && (forall id :: IsListed(prev, id) <==> IsListed(next, id))
    && (forall i :: 0 <= i < |next| ==> !IsOutdated(prev, next[i]))
  }

  /** A position that both lists have holds another row. */
  predicate IsMoved(prev: seq<Row>, next: seq<Row>) {
    exists i :: 0 <= i < |next| && i < |prev| && prev[i].mac != next[i].mac
  }

  /** What has to be done from one list to the other. */
  ghost predicate IsNeeded(prev: seq<Row>, next: seq<Row>, op: Op) {
    match op
    case Remove(id) => IsListed(prev, id) && !IsListed(next, id)
    case Add(id, item, index) => IsRowAt(next, id, item, index) && !IsListed(prev, id)
    case Update(id, item, index) => IsRowAt(next, id, item, index) && (IsOutdated(prev, item) || (SameRows(prev, next) && IsMoved(prev, next)))
  }

  lemma {:induction false} RemovesExactly(prev: seq<Row>, next: seq<Row>, op: Op)
    ensures op in Removes(prev, next) <==> op.Remove? && IsListed(prev, op.id) && !IsListed(next, op.id)
  {
    if prev != [] {
      RemovesExactly(prev[1..], next, op);
      HasIdAt(next, prev[0].mac);
      if op.Remove? {
        ListedFirst(prev, op.id);
      }
    }
  }

  lemma ListedFirst(list: seq<Row>, id: string)
    requires list != []
    ensures IsListed(list, id) <==> list[0].mac == id || IsListed(list[1..], id)
  {
    HasIdAt(list, id);
    HasIdAt(list[1..], id);
  }

  lemma {:induction false} RowIsUnique(list: seq<Row>, id: string)
    requires DistinctIds(list) && HasId(list, id)
    ensures RowById(list, id).mac == id
    ensures forall i :: 0 <= i < |list| && list[i].mac == id ==> list[i] == RowById(list, id)
    ensures exists i :: 0 <= i < |list| && list[i] == RowById(list, id)
  {
    if list[0].mac == id {
      forall i | 0 <= i < |list| && list[i].mac == id ensures list[i] == list[0] {
        assert i == 0;
      }
    } else {
      RowIsUnique(list[1..], id);
      forall i | 0 <= i < |list| && list[i].mac == id ensures list[i] == RowById(list, id) {
        assert list[1..][i - 1] == list[i];
      }
      var i :| 0 <= i < |list[1..]| && list[1..][i] == RowById(list[1..], id);
      assert list[i + 1] == RowById(list, id);
    }
  }

  lemma ChangedIsOutdated(prev: seq<Row>, r: Row)
    requires DistinctIds(prev)
    ensures Changed(prev, r) <==> IsOutdated(prev, r)
  {
    HasIdAt(prev, r.mac);
    if HasId(prev, r.mac) {
      RowIsUnique(prev, r.mac);
      assert Fingerprint(r) == Content(r) && Fingerprint(RowById(prev, r.mac)) == Content(RowById(prev, r.mac));
    }
  }

  lemma RowAtFirst(list: seq<Row>, id: string, item: Row, k: nat)
    requires list != []
    ensures IsRowAt(list, id, item, k)
            <==> if k == 0 then list[0] == item && id == item.mac else IsRowAt(list[1..], id, item, k - 1)
  {
  }

  lemma {:induction false} UpdatesExactly(prev: seq<Row>, next: seq<Row>, index: nat, op: Op)
    requires DistinctIds(prev)
    ensures op in Updates(prev, next, index)
            <==> op.Update? && op.index >= index && IsRowAt(next, op.id, op.item, op.index - index) && IsOutdated(prev, op.item)
  {
    if next != [] {
      UpdatesExactly(prev, next[1..], index + 1, op);
      ChangedIsOutdated(prev, next[0]);
      if op.Update? && op.index >= index {
        RowAtFirst(next, op.id, op.item, op.index - index);
      }
    }
  }

  lemma {:induction false} AddsExactly(prev: seq<Row>, next: seq<Row>, index: nat, op: Op)
    ensures op in Adds(prev, next, index)
            <==> op.Add? && op.index >= index && IsRowAt(next, op.id, op.item, op.index - index) && !IsListed(prev, op.id)
  {
    if next != [] {
      AddsExactly(prev, next[1..], index + 1, op);
      if op.Add? && op.index >= index {
        RowAtFirst(next, op.id, op.item, op.index - index);
      }
      HasIdAt(prev, next[0].mac);
    }
  }

  lemma {:induction false} AllUpdatesExactly(next: seq<Row>, index: nat, op: Op)
    ensures op in AllUpdates(next, index)
            <==> op.Update? && op.index >= index && IsRowAt(next, op.id, op.item, op.index - index)
  {
    if next != [] {
      AllUpdatesExactly(next[1..], index + 1, op);
      if op.Update? && op.index >= index {
        RowAtFirst(next, op.id, op.item, op.index - index);
      }
    }
  }

  function Direct(prev: seq<Row>, next: seq<Row>): seq<Op> {
    Removes(prev, next) + Updates(prev, next, 0) + Adds(prev, next, 0)
  }

  lemma DirectExactly(prev: seq<Row>, next: seq<Row>, op: Op)
    requires DistinctIds(prev)
    ensures op in Direct(prev, next)
            <==> match op
                 case Remove(id) => IsListed(prev, id) && !IsListed(next, id)
                 case Add(id, item, index) => IsRowAt(next, id, item, index) && !IsListed(prev, id)
                 case Update(id, item, index) => IsRowAt(next, id, item, index) && IsOutdated(prev, item)
  {
    RemovesExactly(prev, next, op);
    UpdatesExactly(prev, next, 0, op);
    AddsExactly(prev, next, 0, op);
  }

  /** Nothing is done directly exactly when all rows are shared and unchanged. */
  lemma NothingDirect(prev: seq<Row>, next: seq<Row>)
    requires DistinctIds(prev)
    ensures Direct(prev, next) == [] <==> SameRows(prev, next)
  {
    var ops := Direct(prev, next);
    if ops != [] {
      DirectExactly(prev, next, ops[0]);
      assert ops[0] in ops;
    } else {
      forall id ensures IsListed(prev, id) <==> IsListed(next, id) {
        DirectExactly(prev, next, Remove(id));
        if IsListed(next, id) {
          NewIsAdded(prev, next, id);
        }
      }
      forall i | 0 <= i < |next| ensures !IsOutdated(prev, next[i]) {
        DirectExactly(prev, next, Update(next[i].mac, next[i], i));
      }
    }
  }

  lemma NewIsAdded(prev: seq<Row>, next: seq<Row>, id: string)
    requires DistinctIds(prev) && Direct(prev, next) == [] && IsListed(next, id)
    ensures IsListed(prev, id)
  {
    var i :| 0 <= i < |next| && next[i].mac == id;
    DirectExactly(prev, next, Add(id, next[i], i));
  }

  lemma ComputedOps(prev: seq<Row>, next: seq<Row>)
    requires Compute(prev, next).Steps?
    ensures DistinctIds(prev)
    ensures Compute(prev, next).ops
         == if Direct(prev, next) == [] && IsMoved(prev, next) then AllUpdates(next, 0) else Direct(prev, next)
  {
  }

  lemma DirectIsNeeded(prev: seq<Row>, next: seq<Row>, op: Op)
    requires DistinctIds(prev) && !(Direct(prev, next) == [] && IsMoved(prev, next))
    ensures op in Direct(prev, next) <==> IsNeeded(prev, next, op)
  {
    NothingDirect(prev, next);
    DirectExactly(prev, next, op);
  }

  lemma MovingIsNeeded(prev: seq<Row>, next: seq<Row>, op: Op)
    requires DistinctIds(prev) && Direct(prev, next) == [] && IsMoved(prev, next)
    ensures op in AllUpdates(next, 0) <==> IsNeeded(prev, next, op)
  {
    NothingDirect(prev, next);
    DirectExactly(prev, next, op);
    AllUpdatesExactly(next, 0, op);
  }

  /** The operations are exactly the needed ones: a removal for each row that has gone, an
      addition for each new one, an update for each with another content, and for all of them
      only if nothing but the order has changed. */
  lemma OpsAreNeeded(prev: seq<Row>, next: seq<Row>, op: Op)
    requires Compute(prev, next).Steps?
    ensures op in Compute(prev, next).ops <==> IsNeeded(prev, next, op)
  {
    ComputedOps(prev, next);
    if Direct(prev, next) == [] && IsMoved(prev, next) {
      MovingIsNeeded(prev, next, op);
    } else {
      DirectIsNeeded(prev, next, op);
    }
  }
}
