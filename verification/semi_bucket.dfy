/**
 * One tag's bucket (org/semispace/TupleCollectionById.java): the tuples of a
 * single tag, filed by id in a concurrent hash map, plus the `waiting` flag
 * that tells the pruning code a reader is blocked on this bucket.
 *
 * The hash map's iteration order is kept explicitly as `order`, a sequence
 * of the map's keys. An overwritten key keeps its place and a removed key
 * drops out, the others keeping theirs. Adding a new key can rehash the
 * table, so the order after an add is a parameter: any enumeration of the
 * new key set.
 */
module SemiBucket {
  import opened Values
  import opened SemiTuple

  /** `s` with every occurrence of `x` removed, the rest in order. */
  function Without(s: seq<int>, x: int): (r: seq<int>)
    ensures forall y :: y in r <==> y in s && y != x
    ensures |r| <= |s|
  {
    if s == [] then []
    else if s[0] == x then Without(s[1..], x)
    else [s[0]] + Without(s[1..], x)
  }

  lemma {:induction false} WithoutKeepsDistinct(s: seq<int>, x: int)
    requires Distinct(s)
    ensures Distinct(Without(s, x))
  {
    if s != [] {
      assert Distinct(s[1..]) by {
        forall i, j | 0 <= i < j < |s[1..]| ensures s[1..][i] != s[1..][j] {
          assert s[1..][i] == s[i + 1] && s[1..][j] == s[j + 1];
        }
      }
      WithoutKeepsDistinct(s[1..], x);
      var rest := Without(s[1..], x);
      if s[0] != x {
        var r := [s[0]] + rest;
        assert s[0] !in s[1..] by {
          forall k | 0 <= k < |s[1..]| ensures s[1..][k] != s[0] {
            assert s[1..][k] == s[k + 1];
          }
        }
        forall i, j | 0 <= i < j < |r| ensures r[i] != r[j] {
          assert r[j] == rest[j - 1];
          if i == 0 {
            assert rest[j - 1] in rest;
            assert rest[j - 1] in s[1..];
          } else {
            assert r[i] == rest[i - 1];
          }
        }
        assert Without(s, x) == r;
      }
    }
  }

  /** Removing a key from an enumeration enumerates the remaining keys. */
  lemma WithoutEnumerates(s: seq<int>, keys: set<int>, x: int)
    requires Enumerates(s, keys)
    ensures Enumerates(Without(s, x), keys - {x})
  {
    WithoutKeepsDistinct(s, x);
    var r := Without(s, x);
    forall i | 0 <= i < |r| ensures r[i] in keys - {x} {
      assert r[i] in r;
      var j :| 0 <= j < |s| && s[j] == r[i];
    }
  }

  /** An enumeration of a set is exactly as long as the set is large. */
  lemma {:induction false} EnumerationLength<T>(s: seq<T>, keys: set<T>)
    requires Enumerates(s, keys)
    ensures |s| == |keys|
  {
    if s == [] {
      assert forall k :: k in keys ==> k in s;
      assert keys == {};
    } else {
      var rest := keys - {s[0]};
      assert Enumerates(s[1..], rest) by {
        forall i | 0 <= i < |s[1..]| ensures s[1..][i] in rest {
          assert s[1..][i] == s[i + 1] && s[i + 1] != s[0];
        }
        forall k | k in rest ensures k in s[1..] {
          var i :| 0 <= i < |s| && s[i] == k;
          assert i != 0;
          assert s[1..][i - 1] == k;
        }
      }
      EnumerationLength(s[1..], rest);
    }
  }

  /** The value of a bucket: its tuples by id, their iteration order and the waiting flag. */
  datatype Bucket = Bucket(elements: map<int, Entry>, order: seq<int>, waiting: bool)

  /** The order enumerates the ids, and every tuple is filed under its own id. */
  ghost predicate BucketValid(b: Bucket)
  {
    && Enumerates(b.order, b.elements.Keys)
    && forall id :: id in b.elements ==> b.elements[id].id == id
  }

  /** The bucket's tuples in iteration order. */
  function Listing(b: Bucket): (r: seq<Entry>)
    requires BucketValid(b)
    ensures |r| == |b.order| == |b.elements|
    ensures forall i :: 0 <= i < |r| ==> r[i] == b.elements[b.order[i]]
    ensures forall e :: e in r <==> e.id in b.elements && b.elements[e.id] == e
  {
    EnumerationLength(b.order, b.elements.Keys);
    var es, ord := b.elements, b.order;
    var r := seq(|ord|, i requires 0 <= i < |ord| => es[ord[i]]);
    ValuesListed(es, ord, r);
    r
  }

  /** Listing a map's values along an enumeration of its keys lists exactly the stored values. */
  lemma ValuesListed(es: map<int, Entry>, ord: seq<int>, r: seq<Entry>)
    requires Enumerates(ord, es.Keys)
    requires forall id :: id in es ==> es[id].id == id
    requires |r| == |ord| && forall i :: 0 <= i < |ord| ==> r[i] == es[ord[i]]
    ensures forall e :: e in r <==> e.id in es && es[e.id] == e
  {
    forall e: Entry | e.id in es && es[e.id] == e ensures e in r {
      var i :| 0 <= i < |ord| && ord[i] == e.id;
      assert r[i] == e;
    }
    forall i | 0 <= i < |r| ensures r[i].id in es && es[r[i].id] == r[i] {
      assert ord[i] in es.Keys;
      assert r[i] == es[ord[i]] && es[ord[i]].id == ord[i];
    }
  }

  /** A listing of a valid bucket names no id twice. */
  lemma ListingDistinct(b: Bucket)
    requires BucketValid(b)
    ensures forall i, j :: 0 <= i < j < |Listing(b)| ==> Listing(b)[i].id != Listing(b)[j].id
  {
    var r := Listing(b);
    forall i, j | 0 <= i < j < |r| ensures r[i].id != r[j].id {
      assert b.order[i] in b.elements.Keys && b.order[j] in b.elements.Keys;
      assert r[i].id == b.order[i] && r[j].id == b.order[j];
    }
  }

  /** A bucket with no tuples and nobody waiting. */
  const EmptyBucket: Bucket := Bucket(map[], [], false)

  /** The bucket without the tuple filed under `id`. */
  function Removed(b: Bucket, id: int): Bucket
  {
    Bucket(b.elements - {id}, Without(b.order, id), b.waiting)
  }

  /** The ids of `s` that `gone` does not name, in their order. */
  function Keep(s: seq<int>, gone: set<int>): (r: seq<int>)
    ensures forall y :: y in r <==> y in s && y !in gone
  {
    if s == [] then [] else (if s[0] in gone then [] else [s[0]]) + Keep(s[1..], gone)
  }

  /** Taking one more id out of a kept order is keeping one id fewer. */
  lemma {:induction false} KeepWithout(s: seq<int>, gone: set<int>, x: int)
    ensures Without(Keep(s, gone), x) == Keep(s, gone + {x})
    decreases |s|
  {
    if s != [] {
      KeepWithout(s[1..], gone, x);
      var r := Keep(s[1..], gone);
      if s[0] in gone {
        assert Keep(s, gone) == r;
        assert Keep(s, gone + {x}) == Keep(s[1..], gone + {x});
      } else {
        var c := [s[0]] + r;
        assert Keep(s, gone) == c;
        assert c != [] && c[0] == s[0] && c[1..] == r;
        assert Without(c, x) == if s[0] == x then Without(r, x) else [s[0]] + Without(r, x);
      }
    }
  }

  /** Keeping everything keeps the order as it is. */
  lemma {:induction false} KeepAll(s: seq<int>)
    ensures Keep(s, {}) == s
    decreases |s|
  {
    if s != [] {
      KeepAll(s[1..]);
    }
  }

  /** The bucket with the ids of `gone` taken out; the other tuples stay, in their order. */
  function Cut(b: Bucket, gone: set<int>): Bucket
  {
    Bucket(b.elements - gone, Keep(b.order, gone), b.waiting)
  }

  /** Removing one id from a cut bucket cuts that id too. */
  lemma CutRemoved(b: Bucket, gone: set<int>, x: int)
    ensures Removed(Cut(b, gone), x) == Cut(b, gone + {x})
  {
    KeepWithout(b.order, gone, x);
    assert b.elements - gone - {x} == b.elements - (gone + {x});
  }

  /** Whether `ord` lists every key of `keys` exactly once: an executable test of `Enumerates`. */
  function IsOrderOf(ord: seq<int>, keys: set<int>): (b: bool)
    ensures b <==> Enumerates(ord, keys)
  {
    var b := Distinct(ord) && (forall i :: 0 <= i < |ord| ==> ord[i] in keys) && (forall k :: k in keys ==> k in ord);
    assert b ==> Enumerates(ord, keys);
    b
  }

  /**
   * The bucket with `e` filed under its id. A known id keeps the order; after
   * a new id the map iterates as `ord` says, when `ord` enumerates the new
   * key set, and otherwise with the new id last.
   */
  function Added(b: Bucket, e: Entry, ord: seq<int>): Bucket
  {
    var es := b.elements[e.id := e];
    Bucket(es, if e.id in b.elements then b.order else if IsOrderOf(ord, es.Keys) then ord else b.order + [e.id], b.waiting)
  }

  /** The bucket after `waitHolder`: an empty bucket was waited on, and its flag is clear again. */
  function AfterWait(b: Bucket): Bucket
  {
    if |b.elements| == 0 then b.(waiting := false) else b
  }

  /** Removal keeps a bucket valid, drops exactly `id` and shrinks it by one iff `id` was there. */
  lemma RemovedEffect(b: Bucket, id: int)
    requires BucketValid(b)
    ensures BucketValid(Removed(b, id))
    ensures id !in Removed(b, id).elements
    ensures forall i :: i != id ==> (i in Removed(b, id).elements <==> i in b.elements)
    ensures |Removed(b, id).elements| == if id in b.elements then |b.elements| - 1 else |b.elements|
  {
    WithoutEnumerates(b.order, b.elements.Keys, id);
  }

  /** Adding keeps a bucket valid; a fresh id grows it by one, and the tuple is then found under its id. */
  lemma AddedEffect(b: Bucket, e: Entry, ord: seq<int>)
    requires BucketValid(b)
    ensures BucketValid(Added(b, e, ord))
    ensures Added(b, e, ord).elements[e.id] == e
    ensures |Added(b, e, ord).elements| == if e.id in b.elements then |b.elements| else |b.elements| + 1
  {
    var r := Added(b, e, ord);
    if e.id !in b.elements && !IsOrderOf(ord, r.elements.Keys) {
      assert r.elements.Keys == b.elements.Keys + {e.id};
      assert Distinct(r.order) by {
        forall i, j | 0 <= i < j < |r.order| ensures r.order[i] != r.order[j] {
          if j == |b.order| {
            assert b.order[i] in b.elements.Keys;
          }
        }
      }
    }
  }

  class TupleCollectionById {
    var elements: map<int, Entry>
    var order: seq<int>
    var waiting: bool

    /** The bucket's current value. */
    function View(): Bucket
      reads this
    {
      Bucket(elements, order, waiting)
    }

    ghost predicate Valid()
      reads this
    {
      BucketValid(View())
    }

    constructor ()
      ensures Valid() && View() == EmptyBucket
    {
      elements := map[];
      order := [];
      waiting := false;
    }

    /** `size()`: the number of distinct ids, which is the length of the iteration order. */
    function Size(): (n: nat)
      reads this
      requires Valid()
      ensures n == |elements.Keys| == |order|
    {
      EnumerationLength(order, elements.Keys);
      |elements|
    }

    /** `createNewCollection(holder)`: a fresh bucket holding exactly `holder`, the only order of one key. */
    static method CreateNewCollection(holder: Tuple) returns (r: Result<TupleCollectionById>)
      ensures r.Ok? <==> holder.GetId().Ok?
      ensures r.Err? ==> r.error == ClassCast
      ensures r.Ok? ==> fresh(r.value) && r.value.Valid()
      ensures r.Ok? ==> var id := holder.GetId().value;
        r.value.elements == map[id := holder.Snapshot(id)] && r.value.order == [id] && !r.value.waiting
    {
      var hc := new TupleCollectionById();
      var added := hc.AddHolder(holder, []);
      if added.Fail? {
        return Err(added.error);
      }
      r := Ok(hc);
    }

    /** `removeHolderById(id)`: removes and returns the tuple filed under `id`, or null. */
    method RemoveHolderById(id: int) returns (found: Option<Entry>)
      requires Valid()
      modifies this
      ensures Valid() && View() == Removed(old(View()), id)
      ensures found == old(FindById(id))
      ensures FindById(id) == None
      ensures Size() == if found.Some? then old(Size()) - 1 else old(Size())
    {
      RemovedEffect(View(), id);
      found := FindById(id);
      elements := elements - {id};
      order := Without(order, id);
    }

    /** `findById(id)`: the tuple filed under `id`, or null. */
    function FindById(id: int): (r: Option<Entry>)
      reads this
      requires Valid()
      ensures r.Some? <==> id in elements
      ensures r.Some? ==> r.value == elements[id] && r.value.id == id
    {
      if id in elements then Some(elements[id]) else None
    }

    /**
     * `addHolder(add)`: files the tuple under `getId()`. A duplicate id first
     * overwrites the old tuple and then fails with an internal error. `ord`
     * is the iteration order the hash map takes on when the id is new.
     */
    method AddHolder(add: Tuple, ord: seq<int>) returns (r: Outcome)
      requires Valid()
      modifies this
      ensures Valid()
      ensures add.GetId().Err? ==> r == Fail(ClassCast) && View() == old(View())
      ensures add.GetId().Ok? ==>
        var id := add.GetId().value;
        && View() == Added(old(View()), add.Snapshot(id), ord)
        && FindById(id) == Some(add.Snapshot(id))
        && Size() == (if id in old(elements) then old(Size()) else old(Size()) + 1)
        && (r.Fail? <==> id in old(elements))
        && (r.Fail? ==> r.error == InternalError)
    {
      var key := add.GetId();
      if key.Err? {
        return Fail(ClassCast);
      }
      var id := key.value;
      var duplicate := id in elements;
      AddedEffect(View(), add.Snapshot(id), ord);
      elements := elements[id := add.Snapshot(id)];
      if !duplicate {
        order := if IsOrderOf(ord, elements.Keys) then ord else order + [id];
      }
      r := if duplicate then Fail(InternalError) else Pass;
    }

    /** `toArray()` (and the iterator): exactly the stored tuples, in iteration order. */
    function ToArray(): (r: seq<Entry>)
      reads this
      requires Valid()
      ensures r == Listing(View())
      ensures |r| == |elements|
      ensures forall e :: e in r <==> e.id in elements && elements[e.id] == e
    {
      Listing(View())
    }

    /**
     * `waitHolder(timeout)`: waits only when the bucket is empty, with
     * `waiting` set for the duration of the wait and cleared afterwards. The
     * wait itself is instantaneous here; nothing else runs meanwhile.
     */
    method WaitHolder(timeout: int) returns (waited: bool)
      modifies this`waiting
      ensures View() == AfterWait(old(View()))
      ensures waited <==> |elements| == 0
      ensures waited ==> !waiting
      ensures !waited ==> waiting == old(waiting)
    {
      waited := |elements| == 0;
      if waited {
        waiting := true;
        waiting := false;
      }
    }

    /** `isWaiting()`. */
    function IsWaiting(): bool
      reads this
    {
      waiting
    }
  }
}
