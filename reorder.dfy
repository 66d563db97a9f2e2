/** The drag-and-drop reorder shared by the category, account and item lists:
    read the rows sorted by `order`, splice the dragged row out and back in at the
    index of the row it was dropped on, then give every row its new index as
    `order`. Only the id and the order of a row take part, so the plan is computed
    on those and each table applies it to its own rows. */
module Reorder {
  import opened Wrappers
  import opened SeqUtil

  /** What the reorder reads of a row. */
  datatype Entry = Entry(id: int, order: int)

  function IdOf(e: Entry): int { e.id }

  /** Rows are read by ascending `order`; rows of equal order come by ascending id. */
  function SortKey(e: Entry): (int, int) { (e.order, e.id) }

  /** `findIndex(r => r.id === id)`: the first index holding the id, or -1. */
  function IndexOfId(s: seq<Entry>, id: int): (r: int)
    ensures -1 <= r < |s|
    ensures r == -1 <==> forall e :: e in s ==> e.id != id
    ensures r >= 0 ==> s[r].id == id && forall k :: 0 <= k < r ==> s[k].id != id
  {
    if s == [] then -1
    else if s[0].id == id then 0
    else
      var r := IndexOfId(s[1..], id);
      assert forall e :: e in s ==> e == s[0] || e in s[1..];
      if r == -1 then -1 else r + 1
  }

  /** The list after the splice, or None when either id is not among the rows. */
  function Reordered(entries: seq<Entry>, activeId: int, overId: int): (r: Option<seq<Entry>>)
    ensures r.None? <==> (forall e :: e in entries ==> e.id != activeId) || (forall e :: e in entries ==> e.id != overId)
    ensures r.Some? ==> multiset(r.value) == multiset(entries)
  {
    var sorted := SortByKey(entries, SortKey);
    var activeIndex := IndexOfId(sorted, activeId);
    var overIndex := IndexOfId(sorted, overId);
    assert forall e :: e in entries <==> e in sorted by {
      forall e ensures e in entries <==> e in sorted {
        assert e in entries <==> e in multiset(entries);
        assert e in sorted <==> e in multiset(sorted);
      }
    }
    if activeIndex < 0 || overIndex < 0 then None
    else Some(Move(sorted, activeIndex, overIndex))
  }

  /** The dragged row lands at the index the target row had in the sorted list, and
      removing it from both lists leaves the same list: the other rows keep their
      relative order. */
  lemma ReorderedMoves(entries: seq<Entry>, activeId: int, overId: int)
    requires Reordered(entries, activeId, overId).Some?
    ensures
      var sorted := SortByKey(entries, SortKey);
      var activeIndex := IndexOfId(sorted, activeId);
      var overIndex := IndexOfId(sorted, overId);
      var moved := Reordered(entries, activeId, overId).value;
      0 <= activeIndex && 0 <= overIndex && sorted[overIndex].id == overId
      && moved[overIndex] == sorted[activeIndex] && moved[overIndex].id == activeId
      && RemoveAt(moved, overIndex) == RemoveAt(sorted, activeIndex)
  {
  }

  /** The `order` the renumbering loop writes: each row of the list gets its index. */
  function Positions(moved: seq<Entry>): map<int, int> {
    if moved == [] then map[]
    else Positions(moved[..|moved| - 1])[moved[|moved| - 1].id := |moved| - 1]
  }

  /** The renumbered rows are exactly the rows of the list. */
  lemma {:induction false} PositionsKeys(moved: seq<Entry>)
    ensures Positions(moved).Keys == set e | e in moved :: e.id
  {
    if moved != [] {
      var n := |moved| - 1;
      PositionsKeys(moved[..n]);
      assert forall e :: e in moved <==> e in moved[..n] || e == moved[n];
    }
  }

  lemma DistinctInit(moved: seq<Entry>)
    requires moved != [] && Distinct(moved, IdOf)
    ensures Distinct(moved[..|moved| - 1], IdOf)
    ensures forall e :: e in moved[..|moved| - 1] ==> e.id != moved[|moved| - 1].id
  {
    var n := |moved| - 1;
    var init := moved[..n];
    forall i, j | 0 <= i < j < |init| ensures IdOf(init[i]) != IdOf(init[j]) {
      assert init[i] == moved[i] && init[j] == moved[j];
    }
    forall e | e in init ensures e.id != moved[n].id {
      var k :| 0 <= k < n && init[k] == e;
      assert IdOf(moved[k]) != IdOf(moved[n]);
    }
  }

  /** With distinct ids, every row gets its own index. */
  lemma {:induction false} PositionsAt(moved: seq<Entry>)
    requires Distinct(moved, IdOf)
    ensures forall i :: 0 <= i < |moved| ==> moved[i].id in Positions(moved) && Positions(moved)[moved[i].id] == i
  {
    if moved != [] {
      var n := |moved| - 1;
      var init := moved[..n];
      DistinctInit(moved);
      PositionsAt(init);
      PositionsKeys(init);
      forall i | 0 <= i < n ensures Positions(moved)[moved[i].id] == i {
        assert init[i] == moved[i];
        assert moved[i] in init;
      }
    }
  }

  /** Every order written is an index of the list. */
  lemma {:induction false} PositionsInRange(moved: seq<Entry>)
    ensures forall id :: id in Positions(moved) ==> 0 <= Positions(moved)[id] < |moved|
  {
    if moved != [] {
      PositionsInRange(moved[..|moved| - 1]);
    }
  }

  /** With distinct ids, no two rows get the same order. */
  lemma PositionsInjective(moved: seq<Entry>)
    requires Distinct(moved, IdOf)
    ensures forall a, b :: a in Positions(moved) && b in Positions(moved) && a != b ==> Positions(moved)[a] != Positions(moved)[b]
  {
    PositionsKeys(moved);
    PositionsAt(moved);
    forall a, b | a in Positions(moved) && b in Positions(moved) && a != b
      ensures Positions(moved)[a] != Positions(moved)[b]
    {
      var ea :| ea in moved && ea.id == a;
      var eb :| eb in moved && eb.id == b;
      var i :| 0 <= i < |moved| && moved[i] == ea;
      var j :| 0 <= j < |moved| && moved[j] == eb;
    }
  }

  /** The renumbering gives the rows of the list the orders 0 .. n-1, one each. */
  lemma PositionsOf(moved: seq<Entry>)
    requires Distinct(moved, IdOf)
    ensures Positions(moved).Keys == set e | e in moved :: e.id
    ensures forall i :: 0 <= i < |moved| ==> moved[i].id in Positions(moved) && Positions(moved)[moved[i].id] == i
    ensures forall id :: id in Positions(moved) ==> 0 <= Positions(moved)[id] < |moved|
    ensures forall a, b :: a in Positions(moved) && b in Positions(moved) && a != b ==> Positions(moved)[a] != Positions(moved)[b]
  {
    PositionsKeys(moved);
    PositionsAt(moved);
    PositionsInRange(moved);
    PositionsInjective(moved);
  }

  /** The new orders of every row of the list, or None when either id is absent. */
  function NewOrders(entries: seq<Entry>, activeId: int, overId: int): Option<map<int, int>> {
    match Reordered(entries, activeId, overId)
    case None => None
    case Some(moved) => Some(Positions(moved))
  }

  /** The plan renumbers exactly the rows of the list, one-to-one onto 0 .. n-1
      (n ids, distinct orders below n), and gives the
      dragged row the index of the row it was dropped on. */
  lemma NewOrdersSpec(entries: seq<Entry>, activeId: int, overId: int)
    requires Distinct(entries, IdOf)
    ensures NewOrders(entries, activeId, overId).Some? ==>
      var m := NewOrders(entries, activeId, overId).value;
      var sorted := SortByKey(entries, SortKey);
      m.Keys == (set e | e in entries :: e.id)
      && (forall id :: id in m ==> 0 <= m[id] < |entries|)
      && (forall a, b :: a in m && b in m && a != b ==> m[a] != m[b])
      && m[activeId] == IndexOfId(sorted, overId)
  {
    var r := Reordered(entries, activeId, overId);
    if r.Some? {
      var moved := r.value;
      DistinctPermutation(entries, moved, IdOf);
      SameIds(entries, moved);
      PositionsOf(moved);
      DraggedLands(entries, activeId, overId);
    }
  }

  lemma SameIds(entries: seq<Entry>, moved: seq<Entry>)
    requires multiset(moved) == multiset(entries)
    ensures |moved| == |entries|
    ensures (set e | e in moved :: e.id) == (set e | e in entries :: e.id)
  {
    assert |moved| == |multiset(moved)|;
    forall e ensures e in moved <==> e in entries {
      assert e in moved <==> e in multiset(moved);
      assert e in entries <==> e in multiset(entries);
    }
  }

  lemma DraggedLands(entries: seq<Entry>, activeId: int, overId: int)
    requires Reordered(entries, activeId, overId).Some?
    requires Distinct(Reordered(entries, activeId, overId).value, IdOf)
    ensures
      var moved := Reordered(entries, activeId, overId).value;
      activeId in Positions(moved)
      && Positions(moved)[activeId] == IndexOfId(SortByKey(entries, SortKey), overId)
  {
    var moved := Reordered(entries, activeId, overId).value;
    ReorderedMoves(entries, activeId, overId);
    PositionsAt(moved);
  }

  /** The reorder plan: the splice, then the renumbering loop. */
  method Plan(entries: seq<Entry>, activeId: int, overId: int) returns (r: Option<map<int, int>>)
    ensures r == NewOrders(entries, activeId, overId)
  {
    var sorted := SortByKey(entries, SortKey);
    var activeIndex := IndexOfId(sorted, activeId);
    var overIndex := IndexOfId(sorted, overId);
    if activeIndex == -1 || overIndex == -1 {
      return None;
    }
    var moved := Move(sorted, activeIndex, overIndex);
    var order := Renumber(moved);
    r := Some(order);
  }

  /** The renumbering loop: the row at index `i` of the list gets `order = i`. */
  method Renumber(moved: seq<Entry>) returns (order: map<int, int>)
    ensures order == Positions(moved)
  {
    order := map[];
    for i := 0 to |moved|
      invariant order == Positions(moved[..i])
    {
      assert moved[..i + 1][..i] == moved[..i];
      order := order[moved[i].id := i];
    }
    assert moved[..|moved|] == moved;
  }
}
