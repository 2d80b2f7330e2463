/**
 * The tag registry (org/semispace/TupleCollection.java): one bucket per tag,
 * a global id sequence, lazily created buckets and occasional pruning of
 * empty ones.
 *
 * `Store` is the value of the registry (each tag's bucket value); the class
 * `TupleCollection` holds the bucket objects, and `Abs()` reads its value.
 */
module SemiStore {
  import opened Values
  import opened SemiTuple
  import opened SemiBucket

  type Store = map<string, Bucket>

  /** Empty buckets are pruned when a removal happens while `idseq` is a multiple of this. */
  const PRUNE_PERIOD: int := 5000

  /** Every bucket is valid and holds only tuples of its own tag. */
  ghost predicate WellFormed(s: Store)
  {
    forall t :: t in s ==> TaggedBucket(s[t], t)
  }

  /** A valid bucket whose tuples all carry the tag `t`. */
  ghost predicate TaggedBucket(b: Bucket, t: string)
  {
    BucketValid(b) && forall id :: id in b.elements ==> b.elements[id].tag == Some(t)
  }

  /** The tuple filed under `id` in the bucket of `tag`, if any. */
  function Lookup(s: Store, tag: string, id: int): Option<Entry>
  {
    if tag in s && id in s[tag].elements then Some(s[tag].elements[id]) else None
  }

  /** Some bucket holds a tuple filed under `id`. */
  ghost predicate Holds(s: Store, id: int)
  {
    exists t :: Lookup(s, t, id).Some?
  }

  /** `removeEmptyHeads`: drops the buckets that are empty and that nobody waits on. */
  function Prune(s: Store): Store
  {
    map t | t in s && (s[t].waiting || |s[t].elements| >= 1) :: s[t]
  }

  /**
   * `removeHolderById(id, tag)`: an unknown tag changes nothing; otherwise the
   * id is removed from that bucket, and if the sequence is at a multiple of
   * the pruning period and that bucket is now empty, empty buckets are pruned.
   */
  function RemoveById(s: Store, idseq: int, tag: string, id: int): Store
  {
    if tag !in s then s
    else
      var s1 := s[tag := Removed(s[tag], id)];
      if idseq % PRUNE_PERIOD == 0 && |s1[tag].elements| < 1 then Prune(s1) else s1
  }

  /** Removes a list of ids from one tag's bucket, one after the other. */
  function RemoveAll(s: Store, idseq: int, tag: string, ids: seq<int>): Store
    decreases |ids|
  {
    if ids == [] then s else RemoveAll(RemoveById(s, idseq, tag, ids[0]), idseq, tag, ids[1..])
  }

  /**
   * `addHolder(add)`: files `e` in the bucket of `tag`, created empty when the
   * tag is new; `ord` is the bucket's iteration order after a new id.
   */
  function Inserted(s: Store, tag: string, e: Entry, ord: seq<int>): Store
  {
    s[tag := Added(if tag in s then s[tag] else EmptyBucket, e, ord)]
  }

  /** A stored tuple written back after a change in place. */
  function Updated(s: Store, tag: string, e: Entry): Store
    requires tag in s
  {
    s[tag := s[tag].(elements := s[tag].elements[e.id := e])]
  }

  /** `waitHolder(tag)`: the bucket of `tag`, created empty if needed, after a wait on it. */
  function Waited(s: Store, tag: string): Store
  {
    s[tag := AfterWait(if tag in s then s[tag] else EmptyBucket)]
  }

  /** The sum of the sizes of the buckets of `tags`. */
  ghost function SumOver(s: Store, tags: set<string>): int
    requires tags <= s.Keys
  {
    if tags == {} then 0
    else
      var t :| t in tags;
      |s[t].elements| + SumOver(s, tags - {t})
  }

  /** `size()`: the sum of all bucket sizes. */
  ghost function Total(s: Store): int
  {
    SumOver(s, s.Keys)
  }

  /** Any bucket can be taken out of the sum first. */
  lemma {:induction false} SumOverSplit(s: Store, tags: set<string>, t: string)
    requires tags <= s.Keys && t in tags
    ensures SumOver(s, tags) == |s[t].elements| + SumOver(s, tags - {t})
    decreases |tags|
  {
    var u :| u in tags && SumOver(s, tags) == |s[u].elements| + SumOver(s, tags - {u});
    if u != t {
      SumOverSplit(s, tags - {u}, t);
      SumOverSplit(s, tags - {t}, u);
      assert tags - {u} - {t} == tags - {t} - {u};
    }
  }

  /** The sum only depends on the sizes of the buckets summed. */
  lemma {:induction false} SumOverSizes(s: Store, s': Store, tags: set<string>)
    requires tags <= s.Keys && tags <= s'.Keys
    requires forall t :: t in tags ==> |s[t].elements| == |s'[t].elements|
    ensures SumOver(s, tags) == SumOver(s', tags)
    decreases |tags|
  {
    if tags != {} {
      var u :| u in tags && SumOver(s, tags) == |s[u].elements| + SumOver(s, tags - {u});
      SumOverSplit(s', tags, u);
      SumOverSizes(s, s', tags - {u});
    }
  }

  /** Leaving empty buckets out of the sum does not change it. */
  lemma {:induction false} SumOverDropEmpty(s: Store, tags: set<string>, empty: set<string>)
    requires empty <= tags <= s.Keys
    requires forall t :: t in empty ==> |s[t].elements| == 0
    ensures SumOver(s, tags - empty) == SumOver(s, tags)
    decreases |empty|
  {
    if empty != {} {
      var e :| e in empty;
      var tags', empty' := tags - {e}, empty - {e};
      assert tags' - empty' == tags - empty;
      SumOverSplit(s, tags, e);
      SumOverDropEmpty(s, tags', empty');
    }
  }

  /** Pruning keeps every stored tuple. */
  lemma PruneKeepsTuples(s: Store)
    ensures forall t, id :: Lookup(Prune(s), t, id) == Lookup(s, t, id)
    ensures forall t :: t in s && t !in Prune(s) ==> |s[t].elements| == 0 && !s[t].waiting
    ensures Total(Prune(s)) == Total(s)
    ensures WellFormed(s) ==> WellFormed(Prune(s))
  {
    var p := Prune(s);
    var empty := s.Keys - p.Keys;
    SumOverDropEmpty(s, s.Keys, empty);
    assert s.Keys - empty == p.Keys;
    SumOverSizes(s, p, p.Keys);
  }

  /** Replacing one bucket by one of another size changes the sum by the difference. */
  lemma ReplaceBucketTotal(s: Store, tag: string, b: Bucket)
    requires tag in s
    ensures Total(s[tag := b]) == Total(s) - |s[tag].elements| + |b.elements|
  {
    var s1 := s[tag := b];
    SumOverSplit(s, s.Keys, tag);
    SumOverSplit(s1, s1.Keys, tag);
    assert s1.Keys == s.Keys;
    SumOverSizes(s, s1, s.Keys - {tag});
  }

  /** Replacing one bucket by another changes only the lookups of that tag. */
  lemma ReplaceBucketLookup(s: Store, tag: string, b: Bucket)
    ensures forall t, i :: t != tag ==> Lookup(s[tag := b], t, i) == Lookup(s, t, i)
    ensures forall i :: Lookup(s[tag := b], tag, i) == if i in b.elements then Some(b.elements[i]) else None
  {
  }

  /** `removeHolderById` removes exactly the one tuple asked for, wherever pruning strikes. */
  lemma RemoveByIdEffect(s: Store, idseq: int, tag: string, id: int)
    requires WellFormed(s)
    ensures forall t, i :: Lookup(RemoveById(s, idseq, tag, id), t, i) ==
                           (if t == tag && i == id then None else Lookup(s, t, i))
    ensures Total(RemoveById(s, idseq, tag, id)) == Total(s) - if Lookup(s, tag, id).Some? then 1 else 0
  {
    if tag in s {
      var b := Removed(s[tag], id);
      RemovedEffect(s[tag], id);
      ReplaceBucketLookup(s, tag, b);
      ReplaceBucketTotal(s, tag, b);
      PruneKeepsTuples(s[tag := b]);
    }
  }

  /** `removeHolderById` keeps the registry well formed. */
  lemma RemoveByIdWellFormed(s: Store, idseq: int, tag: string, id: int)
    requires WellFormed(s)
    ensures WellFormed(RemoveById(s, idseq, tag, id))
  {
    if tag in s {
      var b := Removed(s[tag], id);
      RemovedEffect(s[tag], id);
      assert TaggedBucket(b, tag);
      PruneKeepsTuples(s[tag := b]);
    }
  }

  /** Removing distinct stored ids one by one shrinks the store by their number. */
  lemma {:induction false} RemoveAllEffect(s: Store, idseq: int, tag: string, ids: seq<int>)
    requires WellFormed(s) && Distinct(ids)
    ensures WellFormed(RemoveAll(s, idseq, tag, ids))
    ensures forall t, i :: Lookup(RemoveAll(s, idseq, tag, ids), t, i) ==
                           (if t == tag && i in ids then None else Lookup(s, t, i))
    ensures (forall i :: i in ids ==> Lookup(s, tag, i).Some?) ==>
      Total(RemoveAll(s, idseq, tag, ids)) == Total(s) - |ids|
    decreases |ids|
  {
    if ids != [] {
      var s1 := RemoveById(s, idseq, tag, ids[0]);
      RemoveByIdEffect(s, idseq, tag, ids[0]);
      RemoveByIdWellFormed(s, idseq, tag, ids[0]);
      assert Distinct(ids[1..]) by {
        forall i, j | 0 <= i < j < |ids[1..]| ensures ids[1..][i] != ids[1..][j] {
          assert ids[1..][i] == ids[i + 1] && ids[1..][j] == ids[j + 1];
        }
      }
      RemoveAllEffect(s1, idseq, tag, ids[1..]);
      assert forall i :: i in ids <==> i == ids[0] || i in ids[1..];
      assert ids[0] !in ids[1..] by {
        forall k | 0 <= k < |ids[1..]| ensures ids[1..][k] != ids[0] {
          assert ids[1..][k] == ids[k + 1];
        }
      }
    }
  }

  class TupleCollection {
    var idseq: int
    /** Each tag's bucket, held by value. */
    var heads: map<string, Bucket>

    ghost predicate Valid()
      reads this
    {
      idseq >= 0 && WellFormed(heads)
    }

    constructor ()
      ensures Valid() && idseq == 0 && heads == map[]
    {
      idseq := 0;
      heads := map[];
    }

    /** `next(tag)`: the bucket of `tag`, or null when there is none. */
    function Next(tag: string): (b: Option<Bucket>)
      reads this
      ensures b.Some? <==> tag in heads
      ensures b.Some? ==> b.value == heads[tag]
    {
      if tag in heads then Some(heads[tag]) else None
    }

    /** `removeHolderById(id, tag)`. */
    method RemoveHolderById(id: int, tag: string) returns (r: Option<Entry>)
      requires Valid()
      modifies this
      ensures Valid() && idseq == old(idseq)
      ensures r == Lookup(old(heads), tag, id)
      ensures heads == RemoveById(old(heads), idseq, tag, id)
    {
      if tag !in heads {
        return None;
      }
      var head := heads[tag];
      r := if id in head.elements then Some(head.elements[id]) else None;
      RemoveByIdWellFormed(heads, idseq, tag, id);
      RemovedEffect(head, id);
      heads := heads[tag := Removed(head, id)];
      if idseq % PRUNE_PERIOD == 0 && |heads[tag].elements| < 1 {
        RemoveEmptyHeads();
      }
    }

    /** `removeEmptyHeads()`: collects the empty, unwaited tags, then removes them. */
    method RemoveEmptyHeads()
      requires Valid()
      modifies this
      ensures Valid() && idseq == old(idseq)
      ensures heads == Prune(old(heads))
    {
      var toPurge := EmptyHeads();
      var hs := heads;
      var i := 0;
      while i < |toPurge|
        invariant 0 <= i <= |toPurge|
        invariant forall t :: t in hs <==> t in heads && t !in toPurge[..i]
        invariant forall t :: t in hs ==> hs[t] == heads[t]
      {
        assert toPurge[..i + 1] == toPurge[..i] + [toPurge[i]];
        hs := hs - {toPurge[i]};
        i := i + 1;
      }
      assert toPurge[..i] == toPurge;
      PruneKeepsTuples(heads);
      heads := hs;
    }

    /** The first phase of `removeEmptyHeads()`: the tags whose bucket is empty and unwaited. */
    method EmptyHeads() returns (toPurge: seq<string>)
      ensures forall t :: t in toPurge <==> t in heads && !heads[t].waiting && |heads[t].elements| < 1
    {
      toPurge := [];
      var names := heads.Keys;
      while names != {}
        invariant names <= heads.Keys
        invariant forall t :: t in toPurge <==>
          t in heads && t !in names && !heads[t].waiting && |heads[t].elements| < 1
        decreases names
      {
        var name :| name in names;
        var head := heads[name];
        if !head.waiting && |head.elements| < 1 {
          toPurge := toPurge + [name];
        }
        names := names - {name};
      }
    }

    /** `findById(id, tag)`: the tuple filed under `id` for `tag`, or null. */
    function FindById(id: int, tag: string): (r: Option<Entry>)
      reads this
      requires Valid()
      ensures r.Some? <==> tag in heads && id in heads[tag].elements
      ensures r.Some? ==> r.value.id == id && r.value.tag == Some(tag)
      ensures r == Lookup(heads, tag, id)
    {
      if tag in heads && id in heads[tag].elements then Some(heads[tag].elements[id]) else None
    }

    /**
     * `addHolder(add)`: null is a usage error and a null tag an object error;
     * otherwise the tuple goes into its tag's bucket, which is created holding
     * just that tuple when the tag is new. `ord` is the bucket's iteration
     * order after a new id.
     */
    method AddHolder(add: Tuple?, ord: seq<int>) returns (r: Outcome)
      requires Valid()
      modifies this
      ensures Valid() && idseq == old(idseq)
      ensures add == null ==> r == Fail(UsageError) && heads == old(heads)
      ensures add != null && add.tag == None ==> r == Fail(ObjectError) && heads == old(heads)
      ensures add != null && add.tag != None && add.GetId().Err? ==>
        r == Fail(ClassCast) && heads == old(heads)
      ensures add != null && add.tag != None && add.GetId().Ok? ==>
        var tag, id := add.tag.value, add.GetId().value;
        && heads == Inserted(old(heads), tag, add.Snapshot(id), ord)
        && (r.Fail? <==> Lookup(old(heads), tag, id).Some?)
        && (r.Fail? ==> r.error == InternalError)
    {
      if add == null {
        return Fail(UsageError);
      }
      if add.tag == None {
        return Fail(ObjectError);
      }
      var tag := add.tag.value;
      var key := add.GetId();
      if key.Err? {
        return Fail(ClassCast);
      }
      var e := add.Snapshot(key.value);
      InsertedEffect(heads, tag, e, ord);
      InsertedWellFormed(heads, tag, e, ord);
      if tag !in heads {
        heads := heads[tag := Added(EmptyBucket, e, ord)];
        r := Pass;
      } else {
        var duplicate := e.id in heads[tag].elements;
        heads := heads[tag := Added(heads[tag], e, ord)];
        r := if duplicate then Fail(InternalError) else Pass;
      }
    }

    /**
     * `addHolder(json, liveUntil, tag, searchMap)`: advances the sequence,
     * takes the map's `id` when it has one (otherwise the new sequence value),
     * builds a tuple around the caller's map and adds it (`ord` as for
     * `AddHolder`).
     */
    method AddNew(liveUntil: int, tag: Option<string>, searchMap: FieldMap?, ord: seq<int>) returns (r: Result<Tuple>)
      requires Valid()
      modifies this, searchMap
      ensures Valid() && idseq == old(idseq) + 1
      ensures searchMap == null ==> r == Err(NullPointer) && heads == old(heads)
      ensures searchMap != null && !Get(old(searchMap.entries), ID_KEY).Num? && !Get(old(searchMap.entries), ID_KEY).Null? ==>
        r == Err(ClassCast) && heads == old(heads) && searchMap.entries == old(searchMap.entries)
      ensures searchMap != null && (Get(old(searchMap.entries), ID_KEY).Num? || Get(old(searchMap.entries), ID_KEY).Null?) ==>
        var id := if Get(old(searchMap.entries), ID_KEY).Num? then Get(old(searchMap.entries), ID_KEY).n else idseq;
        && searchMap.entries == Stamped(old(searchMap.entries), id, tag)
        && (tag == None ==> r == Err(ObjectError) && heads == old(heads))
        && (tag != None ==>
          && heads == Inserted(old(heads), tag.value, Entry(id, tag, liveUntil, searchMap.entries), ord)
          && (r.Err? <==> Lookup(old(heads), tag.value, id).Some?)
          && (r.Err? ==> r.error == InternalError)
          && (r.Ok? ==>
                fresh(r.value) && r.value.searchMap == searchMap && r.value.id == id
                && r.value.tag == tag && r.value.liveUntil == liveUntil))
    {
      var holderId := IncrementReturnNextId();
      if searchMap == null {
        return Err(NullPointer);
      }
      var given := Get(searchMap.entries, ID_KEY);
      if given.Num? {
        holderId := given.n;
      } else if !given.Null? {
        return Err(ClassCast);
      }
      ConstructedMirrors(searchMap.entries, holderId, tag);
      var holder := new Tuple.WithLease(liveUntil, tag, holderId, searchMap);
      var added := AddHolder(holder, ord);
      if added.Fail? {
        return Err(added.error);
      }
      r := Ok(holder);
    }

    /** `incrementReturnNextId()`: the sequence only grows, by one per call. */
    method IncrementReturnNextId() returns (n: int)
      modifies this`idseq
      ensures n == old(idseq) + 1 && idseq == n
    {
      idseq := idseq + 1;
      n := idseq;
    }

    /** `size()`: adds up the bucket sizes. */
    method Size() returns (n: int)
      requires Valid()
      ensures n == Total(heads)
    {
      n := 0;
      var rest := heads.Keys;
      while rest != {}
        invariant rest <= heads.Keys
        invariant n + SumOver(heads, rest) == Total(heads)
        decreases rest
      {
        var t :| t in rest;
        SumOverSplit(heads, rest, t);
        n := n + |heads[t].elements|;
        rest := rest - {t};
      }
    }

    /** `retrieveGroupNames()`: every tag, once each. */
    method RetrieveGroupNames() returns (names: seq<string>)
      ensures Enumerates(names, heads.Keys)
    {
      names := [];
      var rest := heads.Keys;
      while rest != {}
        invariant rest <= heads.Keys
        invariant Enumerates(names, heads.Keys - rest)
        decreases rest
      {
        var t :| t in rest;
        names := names + [t];
        rest := rest - {t};
      }
    }

    /** `readHolderWithId(id)`: a tuple filed under `id` in some bucket, or null. */
    method ReadHolderWithId(id: int) returns (r: Option<Entry>)
      requires Valid()
      ensures r.Some? ==> r.value.id == id && r.value.tag.Some? && Lookup(heads, r.value.tag.value, id) == r
      ensures r.None? ==> forall t :: Lookup(heads, t, id) == None
    {
      var rest := heads.Keys;
      while rest != {}
        invariant rest <= heads.Keys
        invariant forall t :: t in heads && t !in rest ==> id !in heads[t].elements
        decreases rest
      {
        var t :| t in rest;
        var found := FindById(id, t);
        if found.Some? {
          return found;
        }
        rest := rest - {t};
      }
      return None;
    }

    /** `findAllHolderIds()`: the id of every stored tuple, as many as there are tuples. */
    method FindAllHolderIds() returns (ids: seq<int>)
      requires Valid()
      ensures |ids| == Total(heads)
      ensures forall t, id :: Lookup(heads, t, id).Some? ==> id in ids
      ensures forall i :: 0 <= i < |ids| ==> Holds(heads, ids[i])
    {
      var hs := heads;
      ids := [];
      var rest := hs.Keys;
      while rest != {}
        invariant rest <= hs.Keys
        invariant |ids| + SumOver(hs, rest) == Total(hs)
        invariant forall t, id :: t in hs && t !in rest && id in hs[t].elements ==> id in ids
        invariant forall i :: 0 <= i < |ids| ==> Holds(hs, ids[i])
        decreases rest
      {
        var t :| t in rest;
        SumOverSplit(hs, rest, t);
        var arr := Listing(hs[t]);
        ghost var before := ids;
        ids := AppendIds(ids, arr);
        AppendedHeld(hs, t, before, ids);
        AppendedCovers(hs, t, rest, before, ids);
        rest := rest - {t};
      }
    }

    /** The inner loop of `findAllHolderIds()`: appends the ids of one bucket's tuples. */
    method AppendIds(ids: seq<int>, arr: seq<Entry>) returns (r: seq<int>)
      ensures |r| == |ids| + |arr| && r[..|ids|] == ids
      ensures forall k :: 0 <= k < |arr| ==> r[|ids| + k] == arr[k].id
    {
      r := ids;
      var j := 0;
      while j < |arr|
        invariant 0 <= j <= |arr|
        invariant |r| == |ids| + j && r[..|ids|] == ids
        invariant forall k :: 0 <= k < j ==> r[|ids| + k] == arr[k].id
      {
        r := r + [arr[j].id];
        j := j + 1;
      }
    }

    /** Writes back a stored tuple whose fields or lease were changed in place. */
    method Update(tag: string, e: Entry)
      requires Valid() && Lookup(heads, tag, e.id).Some? && e.tag == Some(tag)
      modifies this
      ensures Valid() && idseq == old(idseq)
      ensures heads == Updated(old(heads), tag, e)
    {
      heads := Updated(heads, tag, e);
    }

    /**
     * `waitHolder(tag, timeout)`: makes sure the tag has a bucket, creating an
     * empty one if needed, then waits on it (the bucket's `WaitHolder`).
     */
    method WaitHolder(tag: string, timeout: int)
      requires Valid()
      modifies this
      ensures Valid() && idseq == old(idseq)
      ensures heads == Waited(old(heads), tag)
    {
      var e := if tag in heads then heads[tag] else EmptyBucket;
      heads := heads[tag := AfterWait(e)];
    }
  }

  /** Waiting loses no tuple and leaves a bucket for the tag. */
  lemma WaitedKeepsTuples(s: Store, tag: string)
    ensures tag in Waited(s, tag)
    ensures forall t, id :: Lookup(Waited(s, tag), t, id) == Lookup(s, t, id)
    ensures forall t :: t in s && t != tag ==> Waited(s, tag)[t] == s[t]
  {
  }

  /** Waiting keeps the registry well formed and its size unchanged. */
  lemma WaitedEffect(s: Store, tag: string)
    requires WellFormed(s)
    ensures WellFormed(Waited(s, tag)) && Total(Waited(s, tag)) == Total(s)
  {
    if tag in s {
      ReplaceBucketTotal(s, tag, AfterWait(s[tag]));
    } else {
      NewBucketTotal(s, tag, AfterWait(EmptyBucket));
    }
  }

  /** Inserting changes only the one lookup, which then gives the inserted tuple. */
  lemma InsertedEffect(s: Store, tag: string, e: Entry, ord: seq<int>)
    ensures Lookup(Inserted(s, tag, e, ord), tag, e.id) == Some(e)
    ensures forall t, i :: (t != tag || i != e.id) ==> Lookup(Inserted(s, tag, e, ord), t, i) == Lookup(s, t, i)
  {
    var b := if tag in s then s[tag] else EmptyBucket;
    ReplaceBucketLookup(s, tag, Added(b, e, ord));
  }

  /** Inserting a tuple of the bucket's own tag keeps the registry well formed. */
  lemma InsertedWellFormed(s: Store, tag: string, e: Entry, ord: seq<int>)
    requires WellFormed(s) && e.tag == Some(tag)
    ensures WellFormed(Inserted(s, tag, e, ord))
  {
    var b := if tag in s then s[tag] else EmptyBucket;
    AddedEffect(b, e, ord);
    assert TaggedBucket(Added(b, e, ord), tag) by {
      assert forall id :: id in Added(b, e, ord).elements ==> id == e.id || id in b.elements;
    }
  }

  /** A fresh id grows the store by one tuple; a known one replaces its tuple. */
  lemma InsertedTotal(s: Store, tag: string, e: Entry, ord: seq<int>)
    requires tag in s ==> BucketValid(s[tag])
    ensures Total(Inserted(s, tag, e, ord)) == Total(s) + if Lookup(s, tag, e.id).Some? then 0 else 1
  {
    var b := if tag in s then s[tag] else EmptyBucket;
    AddedEffect(b, e, ord);
    if tag in s {
      ReplaceBucketTotal(s, tag, Added(b, e, ord));
    } else {
      NewBucketTotal(s, tag, Added(b, e, ord));
    }
  }

  /** A bucket under a new tag adds its size to the sum. */
  lemma NewBucketTotal(s: Store, tag: string, b: Bucket)
    requires tag !in s
    ensures Total(s[tag := b]) == Total(s) + |b.elements|
  {
    var r := s[tag := b];
    SumOverSplit(r, r.Keys, tag);
    assert r.Keys - {tag} == s.Keys;
    SumOverSizes(s, r, s.Keys);
  }

  /** Every id appended from a bucket's listing is held by the registry. */
  lemma AppendedHeld(hs: Store, t: string, before: seq<int>, ids: seq<int>)
    requires t in hs && BucketValid(hs[t])
    requires |ids| == |before| + |Listing(hs[t])| && ids[..|before|] == before
    requires forall k :: 0 <= k < |Listing(hs[t])| ==> ids[|before| + k] == Listing(hs[t])[k].id
    requires forall i :: 0 <= i < |before| ==> Holds(hs, before[i])
    ensures forall i :: 0 <= i < |ids| ==> Holds(hs, ids[i])
  {
    var arr := Listing(hs[t]);
    forall i | 0 <= i < |ids| ensures Holds(hs, ids[i]) {
      if i >= |before| {
        assert Lookup(hs, t, arr[i - |before|].id).Some?;
      } else {
        assert ids[i] == before[i];
      }
    }
  }

  /** After appending a bucket's listing, the ids collected cover that bucket as well. */
  lemma AppendedCovers(hs: Store, t: string, rest: set<string>, before: seq<int>, ids: seq<int>)
    requires t in rest && rest <= hs.Keys && BucketValid(hs[t])
    requires |ids| == |before| + |Listing(hs[t])| && ids[..|before|] == before
    requires forall k :: 0 <= k < |Listing(hs[t])| ==> ids[|before| + k] == Listing(hs[t])[k].id
    requires forall u, id :: u in hs && u !in rest && id in hs[u].elements ==> id in before
    ensures forall u, id :: u in hs && u !in rest - {t} && id in hs[u].elements ==> id in ids
  {
    var arr := Listing(hs[t]);
    forall id | id in hs[t].elements ensures id in ids {
      var e := hs[t].elements[id];
      assert e in arr;
      var k :| 0 <= k < |arr| && arr[k] == e;
      assert ids[|before| + k] == id;
    }
    forall u, id | u in hs && u !in rest - {t} && id in hs[u].elements ensures id in ids {
      if u != t {
        assert id in before;
        var k :| 0 <= k < |before| && before[k] == id;
        assert ids[k] == id;
      }
    }
  }

  /** A stored tuple written back under its own id and tag: only that lookup changes, nothing is lost. */
  lemma UpdatedEffect(s: Store, tag: string, e: Entry)
    requires WellFormed(s) && Lookup(s, tag, e.id).Some? && e.tag == Some(tag)
    ensures WellFormed(Updated(s, tag, e))
    ensures Lookup(Updated(s, tag, e), tag, e.id) == Some(e)
    ensures forall t, i :: (t != tag || i != e.id) ==> Lookup(Updated(s, tag, e), t, i) == Lookup(s, t, i)
    ensures Total(Updated(s, tag, e)) == Total(s)
  {
    var b := Updated(s, tag, e)[tag];
    assert b.elements.Keys == s[tag].elements.Keys;
    assert TaggedBucket(b, tag);
    ReplaceBucketLookup(s, tag, b);
    ReplaceBucketTotal(s, tag, b);
  }

  /**
   * Writing a stored entry back and then removing other stored ids: the
   * entry stays, the ids go, the rest is untouched, and the store shrinks by
   * the number of ids.
   */
  lemma UpdatedThenRemoved(s: Store, idseq: int, tag: string, e: Entry, ids: seq<int>)
    requires WellFormed(s) && Lookup(s, tag, e.id).Some? && e.tag == Some(tag)
    requires Distinct(ids) && e.id !in ids && forall i :: i in ids ==> Lookup(s, tag, i).Some?
    ensures var s1 := RemoveAll(Updated(s, tag, e), idseq, tag, ids);
      && WellFormed(s1)
      && (forall t, i :: t != tag || (i !in ids && i != e.id) ==> Lookup(s1, t, i) == Lookup(s, t, i))
      && (forall i :: i in ids ==> Lookup(s1, tag, i) == None)
      && Lookup(s1, tag, e.id) == Some(e)
      && Total(s1) == Total(s) - |ids|
  {
    UpdatedEffect(s, tag, e);
    RemoveAllEffect(Updated(s, tag, e), idseq, tag, ids);
  }

  /** Removing a list of ids and then one more is removing the longer list. */
  lemma {:induction false} RemoveAllSnoc(s: Store, idseq: int, tag: string, ids: seq<int>, x: int)
    ensures RemoveAll(s, idseq, tag, ids + [x]) == RemoveById(RemoveAll(s, idseq, tag, ids), idseq, tag, x)
    decreases |ids|
  {
    if ids == [] {
      assert [] + [x] == [x];
    } else {
      assert (ids + [x])[1..] == ids[1..] + [x];
      RemoveAllSnoc(RemoveById(s, idseq, tag, ids[0]), idseq, tag, ids[1..], x);
    }
  }

  /** The listing a scan of `tag` walks: that bucket's tuples in order, or nothing. */
  function Listed(s: Store, tag: string): (r: seq<Entry>)
    requires WellFormed(s)
    ensures forall e :: e in r <==> Lookup(s, tag, e.id) == Some(e)
    ensures forall i, j :: 0 <= i < j < |r| ==> r[i].id != r[j].id
  {
    if tag in s then
      assert TaggedBucket(s[tag], tag);
      ListingDistinct(s[tag]);
      Listing(s[tag])
    else []
  }
}
