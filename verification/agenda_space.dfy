/**
 * A dynamic-agenda channel (impl/TupleSpaceImpl.java): a `TreeSet` of tuples
 * ordered by `compareTo`, i.e. by descending priority, so that no two stored
 * tuples share a priority.
 *
 * The set is kept as the sequence of stored tuple values in iteration order.
 * The order is the intended one (`AgendaTuple.Compare`); the order `compareTo`
 * gives as written is not a total order once priorities are far apart.
 */
module AgendaSpace {
  import opened Values
  import opened AgendaLogic
  import opened AgendaTuple

  /** Strictly descending priorities: the iteration order of the tree set. */
  predicate Descending(ts: seq<TupleData>)
  {
    forall i, j :: 0 <= i < j < |ts| ==> ts[i].priority > ts[j].priority
  }

  /** Some stored tuple compares equal to one with priority `p`. */
  predicate HasPriority(ts: seq<TupleData>, p: int)
  {
    exists i :: 0 <= i < |ts| && ts[i].priority == p
  }

  /** The first position whose priority is at most `p`: where a tuple of priority `p` belongs. */
  function PlaceOf(ts: seq<TupleData>, p: int): (k: nat)
    ensures k <= |ts|
    ensures forall i :: 0 <= i < k ==> ts[i].priority > p
    ensures k < |ts| ==> ts[k].priority <= p
  {
    if ts == [] || ts[0].priority <= p then 0 else 1 + PlaceOf(ts[1..], p)
  }

  /** The first position holding priority `p`, or the length when there is none. */
  function FirstWith(ts: seq<TupleData>, p: int): (k: nat)
    ensures k <= |ts|
    ensures forall i :: 0 <= i < k ==> ts[i].priority != p
    ensures k < |ts| ==> ts[k].priority == p
  {
    if ts == [] || ts[0].priority == p then 0 else 1 + FirstWith(ts[1..], p)
  }

  /**
   * `TreeSet.add(d)`: the tree is searched for `d`'s place; if the tuple
   * there compares equal nothing changes, otherwise `d` goes in at that place.
   */
  function Added(ts: seq<TupleData>, d: TupleData): seq<TupleData>
  {
    var k := PlaceOf(ts, d.priority);
    if k < |ts| && ts[k].priority == d.priority then ts else ts[..k] + [d] + ts[k..]
  }

  /** `TreeSet.remove(d)`: drops the stored tuple that compares equal to `d`, if any. */
  function RemovedPriority(ts: seq<TupleData>, p: int): seq<TupleData>
  {
    var k := FirstWith(ts, p);
    if k < |ts| then ts[..k] + ts[k + 1..] else ts
  }

  /** In a sorted set, priority `p` is stored exactly when its place holds it. */
  lemma PlaceHolds(ts: seq<TupleData>, p: int)
    requires Descending(ts)
    ensures var k := PlaceOf(ts, p); HasPriority(ts, p) <==> k < |ts| && ts[k].priority == p
  {
    var k := PlaceOf(ts, p);
    if HasPriority(ts, p) {
      var i :| 0 <= i < |ts| && ts[i].priority == p;
      assert k <= i;
      assert ts[k].priority >= ts[i].priority;
    }
  }

  /**
   * `add` on a sorted set: a tuple whose priority is already present is not
   * added; any other tuple is added, exactly once, at the place that keeps
   * the order.
   */
  lemma AddedEffect(ts: seq<TupleData>, d: TupleData)
    requires Descending(ts)
    ensures Descending(Added(ts, d))
    ensures HasPriority(ts, d.priority) ==> Added(ts, d) == ts
    ensures !HasPriority(ts, d.priority) ==> multiset(Added(ts, d)) == multiset(ts) + multiset{d}
  {
    PlaceHolds(ts, d.priority);
    var k := PlaceOf(ts, d.priority);
    if !HasPriority(ts, d.priority) {
      var r := ts[..k] + [d] + ts[k..];
      assert Added(ts, d) == r;
      InsertedInOrder(ts, d, k);
      InsertedOnce(ts, d, k);
    }
  }

  /** Putting `d` at `k` adds it once and keeps every stored tuple. */
  lemma InsertedOnce(ts: seq<TupleData>, d: TupleData, k: nat)
    requires k <= |ts|
    ensures multiset(ts[..k] + [d] + ts[k..]) == multiset(ts) + multiset{d}
  {
    calc {
      multiset(ts[..k] + [d] + ts[k..]);
      multiset(ts[..k]) + multiset{d} + multiset(ts[k..]);
      { assert ts == ts[..k] + ts[k..]; }
      multiset(ts) + multiset{d};
    }
  }

  /** Putting `d` between the higher and the lower priorities keeps the set sorted. */
  lemma InsertedInOrder(ts: seq<TupleData>, d: TupleData, k: nat)
    requires Descending(ts) && k <= |ts|
    requires forall i :: 0 <= i < k ==> ts[i].priority > d.priority
    requires k < |ts| ==> ts[k].priority < d.priority
    ensures Descending(ts[..k] + [d] + ts[k..])
  {
    var r := ts[..k] + [d] + ts[k..];
    forall i, j | 0 <= i < j < |r| ensures r[i].priority > r[j].priority {
      if j < k {
        assert r[i] == ts[i] && r[j] == ts[j];
      } else if j == k {
        assert r[i] == ts[i];
      } else if i < k {
        assert r[i] == ts[i] && r[j] == ts[j - 1];
      } else if i == k {
        assert r[j] == ts[j - 1];
      } else {
        assert r[i] == ts[i - 1] && r[j] == ts[j - 1];
      }
    }
  }

  /**
   * `remove` on a sorted set: the tuple of that priority, if stored, leaves;
   * nothing else changes, and the order is kept.
   */
  lemma RemovedEffect(ts: seq<TupleData>, k: int, p: int)
    requires Descending(ts)
    requires 0 <= k < |ts| ==> ts[k].priority == p
    requires !(0 <= k < |ts|) ==> !HasPriority(ts, p)
    ensures Descending(RemovedPriority(ts, p))
    ensures 0 <= k < |ts| ==> RemovedPriority(ts, p) == ts[..k] + ts[k + 1..]
    ensures !(0 <= k < |ts|) ==> RemovedPriority(ts, p) == ts
  {
    var f := FirstWith(ts, p);
    if 0 <= k < |ts| {
      assert f == k;
      DroppedKeeps(ts, k);
    } else {
      assert f == |ts| by {
        assert f < |ts| ==> HasPriority(ts, p);
      }
    }
  }

  /** Every stored tuple can be printed: `insert` prints a tuple before adding it. */
  predicate AllPrintable(ts: seq<TupleData>)
  {
    forall d :: d in ts ==> PrintableFields(d.fields)
  }

  /**
   * One step of the walk in `getMatch` and `getMatches`: the tuple and the
   * template are printed for the log, which fails on a field value that is
   * not a string, and then the tuple is matched against the constraint.
   */
  function Inspect(c: Option<Logic>, tf: Fields, d: TupleData): (r: Result<bool>)
    ensures !PrintableFields(d.fields) || !PrintableFields(tf) ==> r == Err(ClassCast)
    ensures PrintableFields(d.fields) && PrintableFields(tf) ==> r == Match(c, d.fields)
  {
    if !PrintableFields(d.fields) || !PrintableFields(tf) then Err(ClassCast) else Match(c, d.fields)
  }

  /** Dropping the tuple at `k` keeps the order and leaves only stored tuples. */
  lemma DroppedKeeps(ts: seq<TupleData>, k: nat)
    requires k < |ts|
    ensures Descending(ts) ==> Descending(ts[..k] + ts[k + 1..])
    ensures forall x :: x in ts[..k] + ts[k + 1..] ==> x in ts
  {
    var r := ts[..k] + ts[k + 1..];
    if Descending(ts) {
      forall i, j | 0 <= i < j < |r| ensures r[i].priority > r[j].priority {
        var i' := if i < k then i else i + 1;
        var j' := if j < k then j else j + 1;
        assert r[i] == ts[i'] && r[j] == ts[j'];
      }
    }
    forall x | x in r ensures x in ts {
      assert x in ts[..k] || x in ts[k + 1..];
    }
  }

  /** Marking the tuple at `k` with a request id keeps the order and every tuple's fields. */
  lemma StampedKeeps(ts: seq<TupleData>, k: nat, rid: string)
    requires k < |ts|
    ensures Descending(ts) ==> Descending(ts[k := Stamp(ts[k], rid)])
    ensures AllPrintable(ts) ==> AllPrintable(ts[k := Stamp(ts[k], rid)])
  {
    var r := ts[k := Stamp(ts[k], rid)];
    forall x | x in r && AllPrintable(ts) ensures PrintableFields(x.fields) {
      var j :| 0 <= j < |r| && r[j] == x;
      assert x.fields == ts[j].fields;
    }
  }

  /** No stored tuple matches the constraint from `i` up to `j`. */
  ghost predicate NoneMatch(ts: seq<TupleData>, c: Option<Logic>, tf: Fields, i: int, j: int)
  {
    forall k :: i <= k < j && 0 <= k < |ts| ==> Inspect(c, tf, ts[k]) == Ok(false)
  }

  /**
   * The index of the first stored tuple, from `i` on, that matches; null if
   * none does; the exception of the first tuple whose evaluation throws
   * before a match is found.
   */
  function FindFrom(ts: seq<TupleData>, c: Option<Logic>, tf: Fields, i: nat): (r: Result<Option<nat>>)
    requires i <= |ts|
    decreases |ts| - i
    ensures r == Ok(None) <==> NoneMatch(ts, c, tf, i, |ts|)
    ensures r.Ok? && r.value.Some? ==>
      i <= r.value.value < |ts| && Inspect(c, tf, ts[r.value.value]) == Ok(true) && NoneMatch(ts, c, tf, i, r.value.value)
    ensures r.Err? ==>
      exists k :: i <= k < |ts| && Inspect(c, tf, ts[k]) == Err(r.error) && NoneMatch(ts, c, tf, i, k)
  {
    if i == |ts| then Ok(None)
    else match Inspect(c, tf, ts[i])
      case Err(x) => Err(x)
      case Ok(b) => if b then Ok(Some(i)) else FindFrom(ts, c, tf, i + 1)
  }

  /** The stored tuple once `setRequestId(rid)` has run on it. */
  function Stamp(d: TupleData, rid: string): TupleData
  {
    d.(requestId := rid)
  }

  /** What one `getMatch` returns, and the set it leaves. */
  datatype Attempt = Attempt(result: Result<Option<TupleData>>, after: seq<TupleData>)

  /**
   * `getMatch(template, destroy)`: a copy of the first tuple in order that
   * matches, with the template's request id; that tuple is removed when
   * `destroy` is set and otherwise keeps the request id. When none matches
   * the answer is null and the set is unchanged; an evaluation that throws
   * leaves it unchanged too.
   */
  function MatchAttempt(ts: seq<TupleData>, c: Option<Logic>, tf: Fields, rid: string, destroy: bool): (a: Attempt)
    ensures a.result == Ok(None) <==> NoneMatch(ts, c, tf, 0, |ts|)
    ensures !a.result.Ok? || a.result.value.None? ==> a.after == ts
    ensures a.result.Err? ==> a.result.error in {ClassCast, NullPointer}
    ensures a.result.Ok? && a.result.value.Some? ==>
      exists k :: 0 <= k < |ts| && Inspect(c, tf, ts[k]) == Ok(true) && NoneMatch(ts, c, tf, 0, k)
        && a.result.value.value == CopyOf(Stamp(ts[k], rid))
        && a.after == (if destroy then ts[..k] + ts[k + 1..] else ts[k := Stamp(ts[k], rid)])
    ensures Descending(ts) ==> Descending(a.after)
    ensures AllPrintable(ts) ==> AllPrintable(a.after)
  {
    match FindFrom(ts, c, tf, 0)
    case Err(x) => Attempt(Err(x), ts)
    case Ok(None) => Attempt(Ok(None), ts)
    case Ok(Some(k)) =>
      var after := if destroy then ts[..k] + ts[k + 1..] else ts[k := Stamp(ts[k], rid)];
      DroppedKeeps(ts, k);
      StampedKeeps(ts, k, rid);
      Attempt(Ok(Some(CopyOf(Stamp(ts[k], rid)))), after)
  }

  /**
   * `read`: a first non-destructive attempt; when it finds nothing the
   * caller waits on the template and the set becomes `others` (what other
   * threads leave in it), then one more attempt is made on that.
   */
  function ReadAttempt(ts: seq<TupleData>, c: Option<Logic>, tf: Fields, rid: string, others: seq<TupleData>): (a: Attempt)
    ensures MatchAttempt(ts, c, tf, rid, false).result != Ok(None) ==> a == MatchAttempt(ts, c, tf, rid, false)
    ensures MatchAttempt(ts, c, tf, rid, false).result == Ok(None) ==> a == MatchAttempt(others, c, tf, rid, false)
  {
    var first := MatchAttempt(ts, c, tf, rid, false);
    if first.result == Ok(None) then MatchAttempt(others, c, tf, rid, false) else first
  }

  /** The stored tuples from index `n` on are marked with `rid` where they match. */
  function StampedUpTo(ts: seq<TupleData>, c: Option<Logic>, tf: Fields, rid: string, n: nat): (r: seq<TupleData>)
    requires n <= |ts|
    ensures |r| == |ts|
    ensures forall j :: 0 <= j < |ts| ==>
      r[j] == if j < n && Inspect(c, tf, ts[j]) == Ok(true) then Stamp(ts[j], rid) else ts[j]
  {
    if n == 0 then ts
    else
      var prev := StampedUpTo(ts, c, tf, rid, n - 1);
      if Inspect(c, tf, ts[n - 1]) == Ok(true) then prev[n - 1 := Stamp(ts[n - 1], rid)] else prev
  }

  /** Marking tuples with a request id leaves their priorities, hence the order, and their fields alone. */
  lemma StampingKeepsOrder(ts: seq<TupleData>, c: Option<Logic>, tf: Fields, rid: string, n: nat)
    requires n <= |ts| && Descending(ts) && AllPrintable(ts)
    ensures Descending(StampedUpTo(ts, c, tf, rid, n))
    ensures AllPrintable(StampedUpTo(ts, c, tf, rid, n))
  {
    var r := StampedUpTo(ts, c, tf, rid, n);
    forall a, b | 0 <= a < b < |r| ensures r[a].priority > r[b].priority {
      assert r[a].priority == ts[a].priority && r[b].priority == ts[b].priority;
    }
    forall x | x in r ensures PrintableFields(x.fields) {
      var j :| 0 <= j < |r| && r[j] == x;
      assert x.fields == ts[j].fields;
    }
  }

  /**
   * `getMatches` over the first `n` stored tuples: copies, in order, of those
   * that match, carrying `rid`; the first evaluation that throws ends it.
   */
  function Gathered(ts: seq<TupleData>, c: Option<Logic>, tf: Fields, rid: string, n: nat): (r: Result<seq<TupleData>>)
    requires n <= |ts|
    ensures r.Ok? <==> forall j :: 0 <= j < n ==> Inspect(c, tf, ts[j]).Ok?
    ensures r.Ok? ==> forall x :: x in r.value ==>
      exists j :: 0 <= j < n && Inspect(c, tf, ts[j]) == Ok(true) && x == CopyOf(Stamp(ts[j], rid))
    ensures r.Ok? ==> forall j :: 0 <= j < n && Inspect(c, tf, ts[j]) == Ok(true) ==>
      CopyOf(Stamp(ts[j], rid)) in r.value
    ensures r.Ok? && Descending(ts) ==> Descending(r.value)
  {
    if n == 0 then Ok([])
    else match Gathered(ts, c, tf, rid, n - 1)
      case Err(x) => Err(x)
      case Ok(acc) =>
        match Inspect(c, tf, ts[n - 1])
        case Err(x) => Err(x)
        case Ok(b) =>
          if b then
            var r := acc + [CopyOf(Stamp(ts[n - 1], rid))];
            assert Descending(ts) ==> Descending(r) by {
              if Descending(ts) {
                forall i, j | 0 <= i < j < |r| ensures r[i].priority > r[j].priority {
                  assert r[i] in acc;
                  if j < |acc| {
                    assert r[j] == acc[j];
                  }
                }
              }
            }
            Ok(r)
          else Ok(acc)
  }

  /** Once an evaluation has thrown, `getMatches` has its answer. */
  lemma {:induction false} GatheredStaysFailed(ts: seq<TupleData>, c: Option<Logic>, tf: Fields, rid: string, i: nat, n: nat)
    requires i <= n <= |ts| && Gathered(ts, c, tf, rid, i).Err?
    ensures Gathered(ts, c, tf, rid, n) == Gathered(ts, c, tf, rid, i)
    decreases n - i
  {
    if i < n {
      assert Gathered(ts, c, tf, rid, i + 1) == Gathered(ts, c, tf, rid, i);
      GatheredStaysFailed(ts, c, tf, rid, i + 1, n);
    }
  }

  /** Where `getMatches` stops: the first tuple whose evaluation throws, or the end. */
  function Reach(ts: seq<TupleData>, c: Option<Logic>, tf: Fields, i: nat): (k: nat)
    requires i <= |ts|
    decreases |ts| - i
    ensures i <= k <= |ts|
    ensures forall j :: i <= j < k ==> Inspect(c, tf, ts[j]).Ok?
    ensures k < |ts| ==> Inspect(c, tf, ts[k]).Err?
  {
    if i == |ts| || Inspect(c, tf, ts[i]).Err? then i else Reach(ts, c, tf, i + 1)
  }

  /** One step of `getMatches` over a tuple whose evaluation does not throw. */
  lemma GatherStep(ts: seq<TupleData>, c: Option<Logic>, tf: Fields, rid: string, i: nat, acc: seq<TupleData>)
    requires i < |ts| && Gathered(ts, c, tf, rid, i) == Ok(acc) && Inspect(c, tf, ts[i]).Ok?
    ensures Gathered(ts, c, tf, rid, i + 1) ==
      Ok(if Inspect(c, tf, ts[i]).value then acc + [CopyOf(Stamp(ts[i], rid))] else acc)
    ensures StampedUpTo(ts, c, tf, rid, i + 1) ==
      if Inspect(c, tf, ts[i]).value then StampedUpTo(ts, c, tf, rid, i)[i := Stamp(ts[i], rid)]
      else StampedUpTo(ts, c, tf, rid, i)
    ensures Reach(ts, c, tf, i) == Reach(ts, c, tf, i + 1)
  {
  }

  /** `getMatches` at a tuple whose evaluation throws: that is its answer, and where it stops. */
  lemma GatherFails(ts: seq<TupleData>, c: Option<Logic>, tf: Fields, rid: string, i: nat)
    requires i < |ts| && Gathered(ts, c, tf, rid, i).Ok? && Inspect(c, tf, ts[i]).Err?
    requires Descending(ts) && AllPrintable(ts)
    ensures Gathered(ts, c, tf, rid, |ts|) == Err(Inspect(c, tf, ts[i]).error)
    ensures Reach(ts, c, tf, i) == i
    ensures Descending(StampedUpTo(ts, c, tf, rid, i)) && AllPrintable(StampedUpTo(ts, c, tf, rid, i))
  {
    StampingKeepsOrder(ts, c, tf, rid, i);
    assert Gathered(ts, c, tf, rid, i + 1) == Err(Inspect(c, tf, ts[i]).error);
    GatheredStaysFailed(ts, c, tf, rid, i + 1, |ts|);
  }

  /** A channel (impl/TupleSpaceImpl.java). */
  class TupleSpace {
    const spaceName: string
    var tuples: seq<TupleData>

    /** The tree set's order, and what `insert` lets in. */
    ghost predicate Valid()
      reads this
    {
      Descending(tuples) && AllPrintable(tuples)
    }

    /** `TupleSpaceImpl(name)`: an empty set. */
    constructor (name: string)
      ensures spaceName == name && tuples == [] && Valid()
    {
      spaceName := name;
      tuples := [];
    }

    /** `tuples()`: the stored tuples in iteration order. */
    function Tuples(): (r: seq<TupleData>)
      reads this
      ensures r == tuples
    {
      tuples
    }

    /**
     * `insert(tup)`: the tuple is printed for the log, which fails on a field
     * value that is not a string; then the tuple itself joins the set (the
     * defensive copy made first is never used), unless one of equal priority
     * is stored.
     */
    method Insert(d: TupleData) returns (o: Outcome)
      requires Valid()
      modifies this
      ensures !PrintableFields(d.fields) ==> o == Fail(ClassCast) && tuples == old(tuples)
      ensures PrintableFields(d.fields) ==> o == Pass && tuples == Added(old(tuples), d)
      ensures Valid()
    {
      if !PrintableFields(d.fields) {
        return Fail(ClassCast);
      }
      AddedEffect(tuples, d);
      ghost var r := Added(tuples, d);
      forall x | x in r ensures PrintableFields(x.fields) {
        assert x in multiset(r);
      }
      tuples := Added(tuples, d);
      o := Pass;
    }

    /** `internalRemove(t)`: removes the stored tuple comparing equal to `t`. */
    method InternalRemove(d: TupleData) returns (removed: bool)
      requires Valid()
      modifies this
      ensures removed == HasPriority(old(tuples), d.priority)
      ensures tuples == RemovedPriority(old(tuples), d.priority) && Valid()
    {
      removed := HasPriority(tuples, d.priority);
      if removed {
        var k :| 0 <= k < |tuples| && tuples[k].priority == d.priority;
        RemovedEffect(tuples, k, d.priority);
      } else {
        RemovedEffect(tuples, -1, d.priority);
      }
      var k := FirstWith(tuples, d.priority);
      if k < |tuples| {
        DroppedKeeps(tuples, k);
      }
      tuples := RemovedPriority(tuples, d.priority);
    }

    /** `getMatch(template, destroy)`: walks the set in order and stops at the first match. */
    method GetMatch(template: TemplateImpl, destroy: bool) returns (r: Result<Option<TupleData>>)
      requires Valid()
      modifies this
      ensures Attempt(r, tuples) == MatchAttempt(old(tuples), template.constraint, template.tupleFields.entries, template.requestId, destroy)
      ensures Valid()
    {
      ghost var ts := tuples;
      var c := template.constraint;
      var tf := template.tupleFields.entries;
      var i := 0;
      while i < |tuples|
        invariant tuples == ts && i <= |ts|
        invariant FindFrom(ts, c, tf, i) == FindFrom(ts, c, tf, 0)
      {
        var m := Inspect(c, tf, tuples[i]);
        if m.Err? {
          return Err(m.error);
        }
        if m.value {
          var cur := tuples[i];
          if destroy {
            tuples := tuples[..i] + tuples[i + 1..];
          } else {
            tuples := tuples[i := Stamp(cur, template.requestId)];
          }
          return Ok(Some(CopyOf(Stamp(cur, template.requestId))));
        }
        i := i + 1;
      }
      r := Ok(None);
    }

    /**
     * `getMatches(template)`: every match, in order, is marked with the
     * template's request id and copied out; an evaluation that throws ends
     * the walk with the marks made so far in place.
     */
    method GetMatches(template: TemplateImpl) returns (r: Result<seq<TupleData>>)
      requires Valid()
      modifies this
      ensures r == Gathered(old(tuples), template.constraint, template.tupleFields.entries, template.requestId, |old(tuples)|)
      ensures tuples == StampedUpTo(old(tuples), template.constraint, template.tupleFields.entries, template.requestId,
        Reach(old(tuples), template.constraint, template.tupleFields.entries, 0))
      ensures Valid()
    {
      ghost var ts := tuples;
      var c := template.constraint;
      var tf := template.tupleFields.entries;
      var rid := template.requestId;
      var result := [];
      var i := 0;
      while i < |tuples|
        invariant i <= |ts| && |tuples| == |ts|
        invariant Gathered(ts, c, tf, rid, i) == Ok(result)
        invariant Reach(ts, c, tf, 0) == Reach(ts, c, tf, i)
        invariant tuples == StampedUpTo(ts, c, tf, rid, i)
      {
        assert tuples[i] == ts[i];
        var cur := tuples[i];
        var m := Inspect(c, tf, cur);
        if m.Err? {
          GatherFails(ts, c, tf, rid, i);
          return Err(m.error);
        }
        GatherStep(ts, c, tf, rid, i, result);
        if m.value {
          tuples := tuples[i := Stamp(cur, rid)];
          result := result + [CopyOf(Stamp(cur, rid))];
        }
        i := i + 1;
      }
      r := Ok(result);
      StampingKeepsOrder(ts, c, tf, rid, i);
    }

    /** `collect(template)` is `getMatches(template)`: the same copies, and the same marks left, exception or not. */
    method Collect(template: TemplateImpl) returns (r: Result<seq<TupleData>>)
      requires Valid()
      modifies this
      ensures r == Gathered(old(tuples), template.constraint, template.tupleFields.entries, template.requestId, |old(tuples)|)
      ensures r.Ok? ==> tuples == StampedUpTo(old(tuples), template.constraint, template.tupleFields.entries, template.requestId, |old(tuples)|)
      ensures tuples == StampedUpTo(old(tuples), template.constraint, template.tupleFields.entries, template.requestId,
        Reach(old(tuples), template.constraint, template.tupleFields.entries, 0))
      ensures Valid()
    {
      r := GetMatches(template);
    }

    /** `noWaitRead(template)`: one non-destructive attempt. */
    method NoWaitRead(template: TemplateImpl) returns (r: Result<Option<TupleData>>)
      requires Valid()
      modifies this
      ensures Attempt(r, tuples) == MatchAttempt(old(tuples), template.constraint, template.tupleFields.entries, template.requestId, false)
      ensures Valid()
    {
      r := GetMatch(template, false);
    }

    /**
     * `take(template, t)`: a destructive attempt; if it finds nothing, the
     * wait on the template throws at once (the caller holds the set's lock,
     * not the template's) and is ignored, and the second attempt, still
     * under the lock, sees the same set.
     */
    method Take(template: TemplateImpl, waitTime: int) returns (r: Result<Option<TupleData>>)
      requires Valid()
      modifies this
      ensures Attempt(r, tuples) == MatchAttempt(old(tuples), template.constraint, template.tupleFields.entries, template.requestId, true)
      ensures Valid()
    {
      r := GetMatch(template, true);
      if r == Ok(None) {
        r := GetMatch(template, true);
      }
    }

    /**
     * `read(template, t)`: a non-destructive attempt; if it finds nothing the
     * caller waits up to `t` ms while other threads leave the set as
     * `others`, then makes exactly one more attempt.
     */
    method Read(template: TemplateImpl, waitTime: int, others: seq<TupleData>) returns (r: Result<Option<TupleData>>)
      requires Valid() && Descending(others) && AllPrintable(others) && waitTime > 0
      modifies this
      ensures Attempt(r, tuples) == ReadAttempt(old(tuples), template.constraint, template.tupleFields.entries, template.requestId, others)
      ensures Valid()
    {
      r := GetMatch(template, false);
      if r == Ok(None) {
        tuples := others;
        r := GetMatch(template, false);
      }
    }
  }
}
