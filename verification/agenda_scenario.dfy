/**
 * The scenario of test/ThirdTest.java on the model: three tuples are put
 * into one channel, then a template holding all three fields of the
 * priority-20 tuple is compiled and `addValue` raises that tuple by 15,
 * past the priority-30 one.
 */
module AgendaScenario {
  import opened Values
  import opened AgendaLogic
  import opened AgendaTuple
  import opened AgendaSpace
  import opened Agenda

  const CHANNEL: string := "TestChannel"

  /** The fields of the three stored tuples and of the template. */
  function LowFields(): Fields
  {
    map["fieldA" := Str("foo"), "fieldB" := Str("bar")]
  }

  function ProbeFields(): Fields
  {
    map["fieldA" := Str("foo"), "fieldB" := Str("bar"), "fieldC" := Str("bah")]
  }

  function HighFields(): Fields
  {
    map["fieldA" := Str("foo"), "fieldB" := Str("bah"), "fieldC" := Str("bar")]
  }

  /** `createTuple(name, priority, properties)`: a fresh tuple whose priority is then set. */
  function Created(priority: int, fields: Fields): TupleData
  {
    Fresh(CHANNEL, fields).(priority := priority)
  }

  /** The channel after `populate()`: the three puts, in the test's order. */
  function Populated(): seq<TupleData>
  {
    Added(Added(Added([], Created(10, LowFields())), Created(20, ProbeFields())), Created(30, HighFields()))
  }

  /** Storing a string keeps a field map printable. */
  lemma StoredPrintable(m: Fields, k: string, s: string)
    requires PrintableFields(m)
    ensures PrintableFields(m[k := Str(s)])
  {
  }

  /** The test's field maps hold strings only. */
  lemma FieldsPrintable()
    ensures PrintableFields(LowFields()) && PrintableFields(ProbeFields()) && PrintableFields(HighFields())
  {
    var a := map["fieldA" := Str("foo")];
    StoredPrintable(map[], "fieldA", "foo");
    StoredPrintable(a, "fieldB", "bar");
    StoredPrintable(a["fieldB" := Str("bar")], "fieldC", "bah");
    StoredPrintable(a, "fieldB", "bah");
    StoredPrintable(a["fieldB" := Str("bah")], "fieldC", "bar");
  }

  /** A tuple above every stored priority goes in front. */
  lemma AddedInFront(ts: seq<TupleData>, d: TupleData)
    requires ts == [] || ts[0].priority < d.priority
    ensures Added(ts, d) == [d] + ts
  {
    assert PlaceOf(ts, d.priority) == 0;
  }

  /** `populate()` leaves the channel sorted by priority, highest first. */
  lemma PopulatedOrder()
    ensures Populated() == [Created(30, HighFields()), Created(20, ProbeFields()), Created(10, LowFields())]
    ensures Descending(Populated()) && AllPrintable(Populated())
  {
    var t1 := Created(10, LowFields());
    var t2 := Created(20, ProbeFields());
    var t3 := Created(30, HighFields());
    AddedInFront([], t1);
    AddedInFront([t1], t2);
    AddedInFront([t2, t1], t3);
    FieldsPrintable();
  }

  /** `read` on `[high, mid, low]` whose first match is `mid` returns its copy and changes nothing. */
  lemma ReadFindsMiddle(high: TupleData, mid: TupleData, low: TupleData, c: Option<Logic>, tf: Fields,
                        others: seq<TupleData>)
    requires mid.requestId == ""
    requires Inspect(c, tf, high) == Ok(false) && Inspect(c, tf, mid) == Ok(true)
    ensures ReadAttempt([high, mid, low], c, tf, "", others) == Attempt(Ok(Some(CopyOf(mid))), [high, mid, low])
  {
    var ts := [high, mid, low];
    assert FindFrom(ts, c, tf, 1) == Ok(Some(1));
    assert FindFrom(ts, c, tf, 0) == Ok(Some(1));
    assert ts[1 := Stamp(mid, "")] == ts;
  }

  /**
   * `addValue` on a channel `[high, mid, low]` whose first match is `mid`:
   * the read copy of `mid` moves by `howMuch` to the front.
   */
  lemma MiddleMovesToFront(high: TupleData, mid: TupleData, low: TupleData, c: Option<Logic>, tf: Fields,
                           howMuch: int, others: seq<TupleData>)
    requires high.priority > mid.priority > low.priority && mid.requestId == ""
    requires Inspect(c, tf, high) == Ok(false) && Inspect(c, tf, mid) == Ok(true)
    requires IsInt32(mid.priority + howMuch) && mid.priority + howMuch > high.priority
    ensures AddValueEffect([high, mid, low], c, tf, "", howMuch, others)
      == Bump(Pass, [Bumped(CopyOf(mid), howMuch), high, low])
  {
    var ts := [high, mid, low];
    ReadFindsMiddle(high, mid, low, c, tf, others);
    assert FirstWith(ts[1..], mid.priority) == 0;
    assert FirstWith(ts, mid.priority) == 1;
    assert RemovedPriority(ts, mid.priority) == [high, low];
    AddedInFront([high, low], Bumped(CopyOf(mid), howMuch));
  }

  /** The compiled template rejects the priority-30 tuple, whose `fieldB` differs. */
  lemma HighIsNoMatch(keys: seq<string>)
    requires Enumerates(keys, ProbeFields().Keys)
    ensures Inspect(Some(Compiled(keys, ProbeFields())), ProbeFields(), Created(30, HighFields())) == Ok(false)
  {
    FieldsPrintable();
    CompiledMeaning(keys, ProbeFields(), HighFields());
    assert ProbeFields().Keys == HighFields().Keys;
    assert forall k :: k in ProbeFields() ==> Readable(HighFields(), k);
    assert !Readable(HighFields(), "fieldB") || HighFields()["fieldB"] != ProbeFields()["fieldB"];
    assert Eval(Compiled(keys, ProbeFields()), HighFields()) == Ok(false);
  }

  /** The compiled template accepts the priority-20 tuple, which has its very fields. */
  lemma ProbeIsMatch(keys: seq<string>)
    requires Enumerates(keys, ProbeFields().Keys)
    ensures Inspect(Some(Compiled(keys, ProbeFields())), ProbeFields(), Created(20, ProbeFields())) == Ok(true)
  {
    FieldsPrintable();
    CompiledMeaning(keys, ProbeFields(), ProbeFields());
  }

  /**
   * With the tree kept by `compile` (any iteration order of the template's
   * keys), `addValue(name, template, 15)` finds the priority-20 tuple, the
   * first stored tuple holding all three template fields, and stores its
   * copy at 35: the channel then reads 35, 30, 10, as the test's recorded
   * listing shows.
   */
  lemma ThirdTestIntended(keys: seq<string>, others: seq<TupleData>)
    requires Enumerates(keys, ProbeFields().Keys)
    ensures AddValueEffect(Populated(), Some(Compiled(keys, ProbeFields())), ProbeFields(), "", 15, others)
      == Bump(Pass, [CopyOf(Created(20, ProbeFields())).(priority := 35),
                     Created(30, HighFields()), Created(10, LowFields())])
  {
    PopulatedOrder();
    HighIsNoMatch(keys);
    ProbeIsMatch(keys);
    MiddleMovesToFront(Created(30, HighFields()), Created(20, ProbeFields()), Created(10, LowFields()),
      Some(Compiled(keys, ProbeFields())), ProbeFields(), 15, others);
  }

  /**
   * With `compile` as written the template has no tree, so nothing matches
   * in the channel or in what other threads leave there (`others`), and
   * `addValue` throws its missing-match exception instead.
   */
  lemma ThirdTestAsWritten(others: seq<TupleData>)
    requires AllPrintable(others)
    ensures AddValueEffect(Populated(), None, ProbeFields(), "", 15, others).outcome == Fail(MissingMatch)
  {
    PopulatedOrder();
    var ts := Populated();
    forall k | 0 <= k < |ts| ensures Inspect(None, ProbeFields(), ts[k]) == Ok(false) {
      UncompiledMatchesNothing(ts[k].fields);
    }
    forall k | 0 <= k < |others| ensures Inspect(None, ProbeFields(), others[k]) == Ok(false) {
      UncompiledMatchesNothing(others[k].fields);
    }
    assert MatchAttempt(ts, None, ProbeFields(), "", false).result == Ok(None);
    assert MatchAttempt(others, None, ProbeFields(), "", false).result == Ok(None);
  }
}
