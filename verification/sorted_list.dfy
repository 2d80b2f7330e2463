/**
 * A list kept in `compareTo` order by insertion (util/SortedList.java). The
 * items here are agenda tuples, so the order is descending priority, with
 * the comparison taken as intended (see `AgendaTuple.Compare`).
 */
module SortedLists {
  import opened Values
  import opened AgendaTuple

  /** Each item compares at most 0 to every later one: priorities never increase. */
  predicate Sorted(s: seq<TupleData>)
  {
    forall i, j :: 0 <= i < j < |s| ==> Compare(s[i].priority, s[j].priority) <= 0
  }

  /** Where `add` puts `item`: before the first element it compares at most 0 to. */
  function InsertionPoint(s: seq<TupleData>, item: TupleData): (p: nat)
    ensures p <= |s|
    ensures forall k :: 0 <= k < p ==> Compare(item.priority, s[k].priority) > 0
    ensures p < |s| ==> Compare(item.priority, s[p].priority) <= 0
  {
    if s == [] || Compare(item.priority, s[0].priority) <= 0 then 0
    else 1 + InsertionPoint(s[1..], item)
  }

  /** The list after `add(item)`. */
  function Inserted(s: seq<TupleData>, item: TupleData): seq<TupleData>
  {
    var p := InsertionPoint(s, item);
    s[..p] + [item] + s[p..]
  }

  /**
   * `add` adds exactly the item, at the insertion point, and keeps the old
   * items in their order around it.
   */
  lemma InsertedShape(s: seq<TupleData>, item: TupleData)
    ensures var r := Inserted(s, item); var p := InsertionPoint(s, item);
      && |r| == |s| + 1
      && r[p] == item
      && r[..p] + r[p + 1..] == s
  {
    var r := Inserted(s, item);
    var p := InsertionPoint(s, item);
    assert r[..p] == s[..p];
    assert r[p + 1..] == s[p..];
    assert s == s[..p] + s[p..];
  }

  /** The new multiset is the old one plus the item. */
  lemma InsertedMultiset(s: seq<TupleData>, item: TupleData)
    ensures multiset(Inserted(s, item)) == multiset(s) + multiset{item}
  {
    var p := InsertionPoint(s, item);
    assert s == s[..p] + s[p..];
  }

  /**
   * The item goes ahead of every item of equal priority: all items after it
   * have a priority no higher than its own.
   */
  lemma InsertedAheadOfEquals(s: seq<TupleData>, item: TupleData)
    requires Sorted(s)
    ensures var r := Inserted(s, item); var p := InsertionPoint(s, item);
      forall k :: p < k < |r| ==> r[k].priority <= item.priority
  {
    var r := Inserted(s, item);
    var p := InsertionPoint(s, item);
    forall k | p < k < |r| ensures r[k].priority <= item.priority {
      assert r[k] == s[k - 1];
      assert k - 1 == p || Compare(s[p].priority, s[k - 1].priority) <= 0;
    }
  }

  lemma {:induction false} InsertedSorted(s: seq<TupleData>, item: TupleData)
    requires Sorted(s)
    ensures Sorted(Inserted(s, item))
  {
    var r := Inserted(s, item);
    var p := InsertionPoint(s, item);
    forall i, j | 0 <= i < j < |r| ensures Compare(r[i].priority, r[j].priority) <= 0 {
      if j < p || i > p {
        assert j < p ==> r[i] == s[i] && r[j] == s[j];
        assert i > p ==> r[i] == s[i - 1] && r[j] == s[j - 1];
      } else if i == p {
        assert r[j] == s[j - 1];
        assert Compare(item.priority, s[p].priority) <= 0;
        assert j - 1 == p || Compare(s[p].priority, s[j - 1].priority) <= 0;
      } else if j == p {
        assert r[i] == s[i];
      } else {
        assert r[i] == s[i] && r[j] == s[j - 1];
      }
    }
  }

  class SortedList {
    var list: seq<TupleData>

    constructor ()
      ensures list == []
    {
      list := [];
    }

    function Size(): (n: nat)
      reads this
      ensures n == |list|
    {
      |list|
    }

    /** `get(i)`: the i-th item, or the list's bounds exception. */
    function Get(i: int): (r: Result<TupleData>)
      reads this
      ensures r.Ok? <==> 0 <= i < |list|
      ensures r.Ok? ==> r.value == list[i]
      ensures r.Err? ==> r.error == IndexOutOfBounds
    {
      if 0 <= i < |list| then Ok(list[i]) else Err(IndexOutOfBounds)
    }

    /** `add(item)`: walks to the insertion point, then inserts there. */
    method Add(item: TupleData)
      modifies this
      ensures list == Inserted(old(list), item)
      ensures Size() == old(Size()) + 1
    {
      var insertionPoint := 0;
      while insertionPoint < |list|
        invariant insertionPoint <= |list|
        invariant forall k :: 0 <= k < insertionPoint ==> Compare(item.priority, list[k].priority) > 0
      {
        if Compare(item.priority, list[insertionPoint].priority) <= 0 {
          break;
        }
        insertionPoint := insertionPoint + 1;
      }
      InsertionPointUnique(list, item, insertionPoint);
      list := list[..insertionPoint] + [item] + list[insertionPoint..];
    }

    /** `put(item)` is `add(item)`. */
    method Put(item: TupleData)
      modifies this
      ensures list == Inserted(old(list), item)
    {
      Add(item);
    }
  }

  /** The first position the item compares at most 0 to is the insertion point. */
  lemma InsertionPointUnique(s: seq<TupleData>, item: TupleData, p: nat)
    requires p <= |s|
    requires forall k :: 0 <= k < p ==> Compare(item.priority, s[k].priority) > 0
    requires p < |s| ==> Compare(item.priority, s[p].priority) <= 0
    ensures p == InsertionPoint(s, item)
  {
  }
}
