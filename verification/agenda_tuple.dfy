/**
 * The dynamic agenda's tuples and templates (impl/TupleImpl.java,
 * impl/TemplateImpl.java): a tuple is a tagged field map with an `int`
 * priority; a template is a tuple that carries a compiled constraint.
 *
 * `TupleData` is the value of a tuple as a space stores it; the classes model
 * the Java objects with their setters, the field map being shared by
 * reference (class `FieldMap`).
 */
module AgendaTuple {
  import opened Values
  import opened AgendaLogic

  /** Defaults of a fresh `TupleImpl`. */
  const NO_PRIORITY: int := -1
  const WILDCARD_TAG: string := "*"
  const TEMPLATE_TAG: string := "template"

  /**
   * A tuple's state: priority, request id, tag, id, fields, the `set` counter,
   * the partial-match flag, creation time, command and space name (the last
   * four may be null).
   */
  datatype TupleData = TupleData(
    priority: int,
    requestId: string,
    tag: string,
    id: Option<string>,
    fields: Fields,
    fieldCount: int,
    partial: bool,
    created: Option<int>,
    command: Option<string>,
    space: Option<string>)

  /** A fresh tuple with the given tag and fields. */
  function Fresh(tag: string, fields: Fields): TupleData
  {
    TupleData(NO_PRIORITY, "", tag, None, fields, 0, false, None, None, None)
  }

  /**
   * The state of `copy()`: a new map with the same entries, the counter reset
   * to the number of keys, and neither creation time nor command.
   */
  function CopyOf(d: TupleData): TupleData
  {
    d.(fieldCount := |d.fields|, created := None, command := None)
  }

  /** The state after `set(name, v)`: the entry is stored and the counter moves on. */
  function SetField(d: TupleData, name: string, v: Value): TupleData
  {
    d.(fields := d.fields[name := v], fieldCount := Wrap32(d.fieldCount + 1))
  }

  /**
   * `set` counts calls, not keys: overwriting a field leaves the keys as they
   * were but still adds one to `numFields()`.
   */
  lemma SetOvercounts(d: TupleData, name: string, v: Value)
    requires name in d.fields && IsInt32(d.fieldCount + 1)
    ensures SetField(d, name, v).fields.Keys == d.fields.Keys
    ensures SetField(d, name, v).fieldCount == d.fieldCount + 1
    ensures SetField(SetField(d, name, v), name, v).fields == SetField(d, name, v).fields
  {
  }

  /**
   * `matches(template)`: the template's constraint evaluated on the tuple's
   * fields. Without a constraint the answer is false, once the tuple has been
   * printed for the log, which fails on a field value that is not a string.
   */
  function Match(constraint: Option<Logic>, t: Fields): (r: Result<bool>)
    ensures constraint.None? ==> (r == Ok(false) <==> PrintableFields(t))
    ensures r.Err? ==> r.error == if constraint.None? then ClassCast else NullPointer
  {
    if constraint.None? then (if PrintableFields(t) then Ok(false) else Err(ClassCast))
    else Eval(constraint.value, t)
  }

  // ----- ordering -----

  /**
   * `compareTo` as written: the other tuple's priority minus this one's, in
   * 32-bit arithmetic.
   */
  function CompareToAsWritten(self: int, other: int): (r: int)
    requires IsInt32(self) && IsInt32(other)
    ensures IsInt32(r)
    ensures IsInt32(other - self) ==> r == other - self
  {
    Wrap32(other - self)
  }

  /**
   * When the priorities are far apart the subtraction wraps and both tuples
   * compare as smaller than the other, so the ordering a sorted set relies
   * on breaks: priority 2147483647 and the default -1 each sort first.
   */
  lemma CompareToOverflows()
    ensures CompareToAsWritten(INT_MAX, NO_PRIORITY) < 0
    ensures CompareToAsWritten(NO_PRIORITY, INT_MAX) < 0
  {
    assert Wrap32(NO_PRIORITY - INT_MAX) == INT_MIN;
    assert Wrap32(INT_MAX - NO_PRIORITY) == INT_MIN;
  }

  /** The intended order: higher priority first, equal priorities equal. */
  function Compare(self: int, other: int): (r: int)
    ensures r < 0 <==> self > other
    ensures r == 0 <==> self == other
    ensures r > 0 <==> self < other
  {
    if self > other then -1 else if self < other then 1 else 0
  }

  /** The corrected comparison is a total order: antisymmetric and transitive. */
  lemma CompareIsOrder(a: int, b: int, c: int)
    ensures Compare(a, b) < 0 <==> Compare(b, a) > 0
    ensures Compare(a, b) == 0 <==> Compare(b, a) == 0
    ensures Compare(a, b) < 0 && Compare(b, c) < 0 ==> Compare(a, c) < 0
  {
  }

  /** Wherever the subtraction does not wrap, the code agrees with the intended order. */
  lemma CompareToAgrees(self: int, other: int)
    requires IsInt32(self) && IsInt32(other) && IsInt32(other - self)
    ensures CompareToAsWritten(self, other) < 0 <==> Compare(self, other) < 0
    ensures CompareToAsWritten(self, other) == 0 <==> Compare(self, other) == 0
  {
  }

  // ----- toString -----

  function Digit(n: nat): char
    requires n < 10
  {
    "0123456789"[n]
  }

  /** `Integer.toString` of a non-negative number. */
  function Decimal(n: nat): (s: string)
    ensures |s| > 0
    ensures forall i :: 0 <= i < |s| ==> '0' <= s[i] <= '9'
    ensures |s| > 1 ==> s[0] != '0'
    decreases n
  {
    if n < 10 then [Digit(n)] else Decimal(n / 10) + [Digit(n % 10)]
  }

  /** Reads a string of decimal digits. */
  function ParseDecimal(s: string): nat
    requires forall i :: 0 <= i < |s| ==> '0' <= s[i] <= '9'
  {
    if s == [] then 0 else 10 * ParseDecimal(s[..|s| - 1]) + (s[|s| - 1] - '0') as nat
  }

  /** The printed priority reads back as the priority. */
  lemma {:induction false} DecimalRoundTrip(n: nat)
    ensures ParseDecimal(Decimal(n)) == n
    decreases n
  {
    if n >= 10 {
      DecimalRoundTrip(n / 10);
      var s := Decimal(n);
      assert s[..|s| - 1] == Decimal(n / 10);
    }
  }

  /** An element line `  <name>text</name>` and its newline. */
  function Element(name: string, text: string): string
  {
    "  <" + name + ">" + text + "</" + name + ">\n"
  }

  /** The text a field value is printed as: its `(String)` cast, null included. */
  function ValueText(v: Value): (r: Result<string>)
    ensures r.Err? <==> !v.Str? && !v.Null?
    ensures r.Err? ==> r.error == ClassCast
  {
    match v
    case Str(s) => Ok(s)
    case Null => Ok("null")
    case _ => Err(ClassCast)
  }

  /** A value `toString` can print. */
  predicate Printable(v: Value)
  {
    v.Str? || v.Null?
  }

  /** Every value of the map is printable. */
  predicate PrintableFields(m: Fields)
  {
    forall k :: k in m ==> Printable(m[k])
  }

  /** A line of `toString`'s output. */
  datatype XmlLine =
    | Elem(depth: nat, name: string, text: string)  // `<name>text</name>`, indented `depth` steps
    | Marker(name: string)                          // `<name/>`
    | Open(name: string)                            // `<name>`, opening a block
    | Close(name: string)                           // `</name>`, closing it

  /** Two spaces per indentation step. */
  function Indent(depth: nat): string
  {
    if depth == 0 then "" else "  " + Indent(depth - 1)
  }

  /** The text of one line, with its newline. */
  function LineText(l: XmlLine): string
  {
    match l
    case Elem(depth, n, t) => Indent(depth) + "<" + n + ">" + t + "</" + n + ">\n"
    case Marker(n) => "  <" + n + "/>\n"
    case Open(n) => "  <" + n + ">\n"
    case Close(n) => "  </" + n + ">\n"
  }

  /** The text of a run of lines. */
  function Text(ls: seq<XmlLine>): string
  {
    if ls == [] then "" else Text(ls[..|ls| - 1]) + LineText(ls[|ls| - 1])
  }

  /** An element at depth one is an `Element` line. */
  lemma ElementLine(n: string, t: string)
    ensures LineText(Elem(1, n, t)) == Element(n, t)
  {
    assert Indent(1) == "  ";
  }

  /**
   * The lines `ls` show the element `n` exactly when `v` is set, and then
   * with its value.
   */
  ghost predicate Shows(ls: seq<XmlLine>, n: string, v: Option<string>)
  {
    && (v.Some? <==> exists j :: 0 <= j < |ls| && ls[j].name == n)
    && (forall j :: 0 <= j < |ls| && ls[j].name == n ==> v.Some? && ls[j] == Elem(1, n, v.value))
  }

  /** Where each head line goes: id, space, group, do, then the partial-match marker. */
  function HeadRank(n: string): int
  {
    if n == "id" then 0 else if n == "space" then 1 else if n == "group" then 2 else if n == "do" then 3 else 4
  }

  /** Each line ranks below the next, so no name occurs twice. */
  ghost predicate HeadOrdered(ls: seq<XmlLine>)
  {
    forall i, j :: 0 <= i < j < |ls| ==> HeadRank(ls[i].name) < HeadRank(ls[j].name)
  }

  /** Every line ranks below `r`. */
  ghost predicate RanksBelow(ls: seq<XmlLine>, r: int)
  {
    forall j :: 0 <= j < |ls| ==> HeadRank(ls[j].name) < r
  }

  /** An optional element at depth one: one line when set, none otherwise. */
  function Optional(n: string, v: Option<string>): (ls: seq<XmlLine>)
    ensures Shows(ls, n, v) && |ls| <= 1 && HeadKinds(ls)
    ensures forall j :: 0 <= j < |ls| ==> ls[j].name == n
  {
    if v.Some? then
      var ls := [Elem(1, n, v.value)];
      assert ls[0].name == n;
      ls
    else []
  }

  /** Every line is an element or the partial-match marker. */
  ghost predicate HeadKinds(ls: seq<XmlLine>)
  {
    forall j :: 0 <= j < |ls| ==> ls[j].Elem? || ls[j] == Marker("partialMatch")
  }

  /** At most one line of rank `r` after lines that rank below it. */
  lemma OrderedThen(ls: seq<XmlLine>, piece: seq<XmlLine>, r: int)
    requires HeadOrdered(ls) && RanksBelow(ls, r) && HeadKinds(ls)
    requires |piece| <= 1 && HeadKinds(piece) && forall j :: 0 <= j < |piece| ==> HeadRank(piece[j].name) == r
    ensures HeadOrdered(ls + piece) && RanksBelow(ls + piece, r + 1) && HeadKinds(ls + piece)
  {
  }

  /** Lines whose ranks differ from that of `n` do not change what is shown for `n`. */
  lemma ShowsAcross(ls: seq<XmlLine>, piece: seq<XmlLine>, n: string, v: Option<string>)
    requires Shows(ls, n, v) && forall j :: 0 <= j < |piece| ==> HeadRank(piece[j].name) != HeadRank(n)
    ensures Shows(ls + piece, n, v)
  {
    if v.Some? {
      var j :| 0 <= j < |ls| && ls[j].name == n;
      assert (ls + piece)[j] == ls[j];
    }
  }

  /** What a piece shows for `n` survives lines before it that rank below `n`. */
  lemma ShowsFrom(ls: seq<XmlLine>, piece: seq<XmlLine>, n: string, v: Option<string>)
    requires Shows(piece, n, v) && RanksBelow(ls, HeadRank(n))
    ensures Shows(ls + piece, n, v)
  {
    if v.Some? {
      var j :| 0 <= j < |piece| && piece[j].name == n;
      assert (ls + piece)[|ls| + j] == piece[j];
    }
  }

  /** The lines before the fields, one optional piece per head element. */
  function Head(d: TupleData): seq<XmlLine>
  {
    Optional("id", d.id) + Optional("space", d.space) + Optional("group", Some(d.tag)) + Optional("do", d.command)
      + (if d.partial then [Marker("partialMatch")] else [])
  }

  /**
   * The head lines show id and space when set, the group always, the
   * command when set and the partial-match marker when the flag is, each at
   * most once and in that order.
   */
  lemma HeadLayout(d: TupleData)
    ensures var ls := Head(d);
      && Shows(ls, "id", d.id) && Shows(ls, "space", d.space) && Shows(ls, "do", d.command)
      && Shows(ls, "group", Some(d.tag))
      && (d.partial <==> Marker("partialMatch") in ls)
      && HeadKinds(ls) && HeadOrdered(ls)
  {
    var a, b, c, e := Optional("id", d.id), Optional("space", d.space), Optional("group", Some(d.tag)), Optional("do", d.command);
    var f := if d.partial then [Marker("partialMatch")] else [];
    assert HeadKinds(f);
    HeadOrder(a, b, c, e, f);
    assert Marker("partialMatch") !in a + b + c + e by {
      assert HeadRank("partialMatch") == 4;
    }
    ShowsEarly(a, b, c, e, f, d);
    ShowsLate(a, b, c, e, f, d);
  }

  /** The id and space lines survive the pieces after them. */
  lemma ShowsEarly(a: seq<XmlLine>, b: seq<XmlLine>, c: seq<XmlLine>, e: seq<XmlLine>, f: seq<XmlLine>, d: TupleData)
    requires a == Optional("id", d.id) && b == Optional("space", d.space)
    requires c == Optional("group", Some(d.tag)) && e == Optional("do", d.command)
    requires f == if d.partial then [Marker("partialMatch")] else []
    ensures Shows(a + b + c + e + f, "id", d.id) && Shows(a + b + c + e + f, "space", d.space)
  {
    ShowsAcross(a, b, "id", d.id);
    ShowsAcross(a + b, c, "id", d.id);
    ShowsAcross(a + b + c, e, "id", d.id);
    ShowsAcross(a + b + c + e, f, "id", d.id);
    ShowsFrom(a, b, "space", d.space);
    ShowsAcross(a + b, c, "space", d.space);
    ShowsAcross(a + b + c, e, "space", d.space);
    ShowsAcross(a + b + c + e, f, "space", d.space);
  }

  /** The group and do lines come after the id and space lines and survive the marker. */
  lemma ShowsLate(a: seq<XmlLine>, b: seq<XmlLine>, c: seq<XmlLine>, e: seq<XmlLine>, f: seq<XmlLine>, d: TupleData)
    requires a == Optional("id", d.id) && b == Optional("space", d.space)
    requires c == Optional("group", Some(d.tag)) && e == Optional("do", d.command)
    requires f == if d.partial then [Marker("partialMatch")] else []
    ensures Shows(a + b + c + e + f, "group", Some(d.tag)) && Shows(a + b + c + e + f, "do", d.command)
  {
    ShowsFrom(a + b, c, "group", Some(d.tag));
    ShowsAcross(a + b + c, e, "group", Some(d.tag));
    ShowsAcross(a + b + c + e, f, "group", Some(d.tag));
    ShowsFrom(a + b + c, e, "do", d.command);
    ShowsAcross(a + b + c + e, f, "do", d.command);
  }

  /** Five pieces of ranks 0 to 4, at most one line each, are in head order. */
  lemma HeadOrder(a: seq<XmlLine>, b: seq<XmlLine>, c: seq<XmlLine>, e: seq<XmlLine>, f: seq<XmlLine>)
    requires |a| <= 1 && |b| <= 1 && |c| <= 1 && |e| <= 1 && |f| <= 1
    requires HeadKinds(a) && HeadKinds(b) && HeadKinds(c) && HeadKinds(e) && HeadKinds(f)
    requires forall j :: 0 <= j < |a| ==> HeadRank(a[j].name) == 0
    requires forall j :: 0 <= j < |b| ==> HeadRank(b[j].name) == 1
    requires forall j :: 0 <= j < |c| ==> HeadRank(c[j].name) == 2
    requires forall j :: 0 <= j < |e| ==> HeadRank(e[j].name) == 3
    requires forall j :: 0 <= j < |f| ==> HeadRank(f[j].name) == 4
    ensures HeadOrdered(a + b + c + e + f) && HeadKinds(a + b + c + e + f)
    ensures RanksBelow(a + b + c + e, 4)
  {
    assert [] + a == a;
    OrderedThen([], a, 0);
    OrderedThen(a, b, 1);
    OrderedThen(a + b, c, 2);
    OrderedThen(a + b + c, e, 3);
    OrderedThen(a + b + c + e, f, 4);
  }

  /** The four lines of one field: its name and its printed value inside a `<field>` block. */
  function FieldBlock(k: string, text: string): seq<XmlLine>
  {
    [Open("field"), Elem(2, "name", k), Elem(2, "value", text), Close("field")]
  }

  /**
   * The `<field>` blocks for `keys`, in the order of `keys`; a value that is
   * not a string fails its cast.
   */
  function FieldBlocks(keys: seq<string>, m: Fields): (r: Result<seq<XmlLine>>)
    requires forall i :: 0 <= i < |keys| ==> keys[i] in m
    ensures r.Err? <==> exists i :: 0 <= i < |keys| && !Printable(m[keys[i]])
    ensures r.Err? ==> r.error == ClassCast
    ensures r.Ok? ==> |r.value| == 4 * |keys|
  {
    if keys == [] then Ok([])
    else
      var n := |keys| - 1;
      match FieldBlocks(keys[..n], m)
      case Err(x) =>
        ghost var i :| 0 <= i < n && !Printable(m[keys[..n][i]]);
        Err(x)
      case Ok(before) =>
        match ValueText(m[keys[n]])
        case Err(x) => Err(x)
        case Ok(text) => Ok(before + FieldBlock(keys[n], text))
  }

  /** The field text is one block of four lines per key, in the order of `keys`. */
  lemma {:induction false} FieldBlocksLayout(keys: seq<string>, m: Fields)
    requires forall i :: 0 <= i < |keys| ==> keys[i] in m
    requires FieldBlocks(keys, m).Ok?
    ensures forall i :: 0 <= i < |keys| ==>
      ValueText(m[keys[i]]).Ok? && FieldBlocks(keys, m).value[4 * i..4 * i + 4] == FieldBlock(keys[i], ValueText(m[keys[i]]).value)
  {
    if keys != [] {
      var n := |keys| - 1;
      var ks := keys[..n];
      assert forall i :: 0 <= i < n ==> ks[i] == keys[i];
      FieldBlocksLayout(ks, m);
      var before := FieldBlocks(ks, m).value;
      var text := ValueText(m[keys[n]]).value;
      assert FieldBlocks(keys, m).value == before + FieldBlock(keys[n], text);
      BlocksThen(before, FieldBlock(keys[n], text), n);
    }
  }

  /** A block of four lines after `n` blocks leaves those where they were and becomes block `n`. */
  lemma BlocksThen(before: seq<XmlLine>, block: seq<XmlLine>, n: nat)
    requires |before| == 4 * n && |block| == 4
    ensures forall i :: 0 <= i < n ==> (before + block)[4 * i..4 * i + 4] == before[4 * i..4 * i + 4]
    ensures (before + block)[4 * n..4 * n + 4] == block
  {
    var r := before + block;
    forall i | 0 <= i < n ensures r[4 * i..4 * i + 4] == before[4 * i..4 * i + 4] {
      assert 4 * i + 4 <= 4 * n;
    }
  }

  /** The priority element, written only for priorities above -1. */
  function PriorityElement(p: int): string
  {
    if p > -1 then Element("priority", Decimal(p)) else ""
  }

  /** The priority line, only for priorities above -1. */
  function PriorityLine(p: int): (ls: seq<XmlLine>)
    ensures Text(ls) == PriorityElement(p)
  {
    if p > -1 then
      var ls := [Elem(1, "priority", Decimal(p))];
      ElementLine("priority", Decimal(p));
      assert ls[..0] == [];
      ls
    else []
  }

  /** `s` starts with `t`. */
  predicate StartsWith(s: string, t: string)
  {
    |t| <= |s| && s[..|t|] == t
  }

  /** `s` ends with `t`. */
  predicate EndsWith(s: string, t: string)
  {
    |t| <= |s| && s[|s| - |t|..] == t
  }

  /** A text ends with the last two of the three pieces it is made of. */
  lemma EndsWithJoin(a: string, b: string, c: string)
    ensures EndsWith(a + b + c, b + c)
  {
    assert a + b + c == a + (b + c);
  }

  const OPEN_TUPLE: string := "<tuple>\n"
  const CLOSE_TUPLE: string := "</tuple>\n"

  /**
   * `toString()` with the map's fields in iteration order `keys`: it fails
   * exactly when some field value is neither a string nor null; otherwise,
   * between `<tuple>` and `</tuple>`, the head lines, one field block per
   * key in that order, and the priority element (written only for
   * priorities above -1).
   */
  function ToXml(d: TupleData, keys: seq<string>): (r: Result<string>)
    requires Enumerates(keys, d.fields.Keys)
    ensures r.Err? <==> !PrintableFields(d.fields)
    ensures r.Err? ==> r.error == ClassCast
    ensures r.Ok? ==> FieldBlocks(keys, d.fields).Ok?
    ensures r.Ok? ==>
      r.value == OPEN_TUPLE + Text(Head(d)) + Text(FieldBlocks(keys, d.fields).value) + Text(PriorityLine(d.priority)) + CLOSE_TUPLE
    ensures r.Ok? ==> StartsWith(r.value, OPEN_TUPLE)
    ensures r.Ok? ==> EndsWith(r.value, PriorityElement(d.priority) + CLOSE_TUPLE)
  {
    match FieldBlocks(keys, d.fields)
    case Err(x) =>
      ghost var i :| 0 <= i < |keys| && !Printable(d.fields[keys[i]]);
      Err(x)
    case Ok(body) =>
      var x := OPEN_TUPLE + Text(Head(d));
      var y := x + Text(body);
      var p := Text(PriorityLine(d.priority));
      var s := y + p + CLOSE_TUPLE;
      assert s[..|OPEN_TUPLE|] == y[..|OPEN_TUPLE|] == x[..|OPEN_TUPLE|] == OPEN_TUPLE;
      EndsWithJoin(y, p, CLOSE_TUPLE);
      Ok(s)
  }

  // ----- the Java objects -----

  /** A dynamic-agenda tuple (impl/TupleImpl.java). */
  class TupleImpl {
    var priority: int
    var requestId: string
    var tag: string
    var id: Option<string>
    var tupleFields: FieldMap
    var fieldCount: int
    var allowPartialMatch: bool
    var created: Option<int>
    var command: Option<string>
    var mySpace: Option<string>

    /** The priority is a Java `int`. */
    ghost predicate Valid()
      reads this
    {
      IsInt32(priority)
    }

    function Data(): TupleData
      reads this, tupleFields
    {
      TupleData(priority, requestId, tag, id, tupleFields.entries, fieldCount,
        allowPartialMatch, created, command, mySpace)
    }

    /** `TupleImpl(tag)`: a fresh, empty concurrent map and the defaults. */
    constructor (tag: string)
      ensures fresh(tupleFields) && Valid()
      ensures Data() == Fresh(tag, map[])
    {
      priority := NO_PRIORITY;
      requestId := "";
      this.tag := tag;
      id := None;
      tupleFields := new FieldMap(map[]);
      fieldCount := 0;
      allowPartialMatch := false;
      created := None;
      command := None;
      mySpace := None;
    }

    /** `TupleImpl(tag, fields)`: keeps the caller's map itself; the counter starts at 0 whatever it holds. */
    constructor WithFields(tag: string, fields: FieldMap)
      ensures tupleFields == fields && Valid()
      ensures Data() == Fresh(tag, fields.entries)
    {
      priority := NO_PRIORITY;
      requestId := "";
      this.tag := tag;
      id := None;
      tupleFields := fields;
      fieldCount := 0;
      allowPartialMatch := false;
      created := None;
      command := None;
      mySpace := None;
    }

    /** `copy()`: a new tuple over a new map with equal entries. */
    method Copy() returns (c: TupleImpl)
      requires Valid()
      ensures fresh(c) && fresh(c.tupleFields) && c.Valid()
      ensures c.Data() == CopyOf(Data())
    {
      c := new TupleImpl(tag);
      c.tupleFields := new FieldMap(tupleFields.entries);
      c.fieldCount := |tupleFields.entries|;
      c.priority := priority;
      c.requestId := requestId;
      c.id := id;
      c.mySpace := mySpace;
      c.allowPartialMatch := allowPartialMatch;
    }

    /** `set(name, value)`: stores into the shared map and counts the call. */
    method Set(name: string, v: Value)
      modifies this, tupleFields
      ensures tupleFields == old(tupleFields)
      ensures Data() == SetField(old(Data()), name, v)
      ensures Get(name) == v
      ensures priority == old(priority)
    {
      tupleFields.entries := tupleFields.entries[name := v];
      fieldCount := Wrap32(fieldCount + 1);
    }

    /** `get(name)`: null for an absent key. */
    function Get(name: string): Value
      reads this, tupleFields
    {
      Values.Get(tupleFields.entries, name)
    }

    function NumFields(): int
      reads this
    {
      fieldCount
    }

    function FieldNames(): set<string>
      reads this, tupleFields
    {
      tupleFields.entries.Keys
    }

    /** `matches(template)` on the template's current constraint. */
    function Matches(template: TemplateImpl): (r: Result<bool>)
      reads this, tupleFields, template
      ensures template.constraint.None? ==> (r == Ok(false) <==> PrintableFields(tupleFields.entries))
    {
      Match(template.constraint, tupleFields.entries)
    }

    method SetPriority(p: int)
      requires IsInt32(p)
      modifies this
      ensures Data() == old(Data()).(priority := p)
      ensures GetPriority() == p && Valid()
    {
      priority := p;
    }

    function GetPriority(): int
      reads this
    {
      priority
    }

    method SetTag(newTag: string)
      modifies this
      ensures Data() == old(Data()).(tag := newTag)
    {
      tag := newTag;
    }

    method SetRequestId(rid: string)
      modifies this
      ensures Data() == old(Data()).(requestId := rid)
    {
      requestId := rid;
    }

    /** `compareTo(other)` as written. */
    function CompareTo(other: TupleImpl): (r: int)
      requires Valid() && other.Valid()
      reads this, other
      ensures IsInt32(other.priority - priority) ==> (r < 0 <==> priority > other.priority)
    {
      CompareToAsWritten(priority, other.priority)
    }

    /**
     * `toString()` with the map iterated in the order `keys`: the head lines
     * of this tuple, one field block per key and the priority line, between
     * `<tuple>` and `</tuple>`.
     */
    function ToString(keys: seq<string>): (r: Result<string>)
      requires Enumerates(keys, tupleFields.entries.Keys)
      reads this, tupleFields
      ensures r.Err? <==> !PrintableFields(tupleFields.entries)
      ensures r.Ok? ==> FieldBlocks(keys, tupleFields.entries).Ok?
      ensures r.Ok? ==>
        r.value == OPEN_TUPLE + Text(Head(Data())) + Text(FieldBlocks(keys, tupleFields.entries).value) + Text(PriorityLine(priority)) + CLOSE_TUPLE
    {
      ToXml(Data(), keys)
    }
  }

  // ----- templates -----

  /**
   * `compile()`'s tree: an AND root with one EQUALS operand per key, in the
   * map's iteration order `keys`, naming the key and holding its value.
   */
  function Compiled(keys: seq<string>, m: Fields): (root: Logic)
    requires forall i :: 0 <= i < |keys| ==> keys[i] in m
    ensures root.kind == AND && |root.elements| == |keys|
    ensures forall i :: 0 <= i < |keys| ==>
      root.elements[i] == Logic(EQUALS, [], m[keys[i]], Some(keys[i]))
  {
    Logic(AND, EqualsOperands(keys, m), Null, None)
  }

  function EqualsOperands(keys: seq<string>, m: Fields): (es: seq<Logic>)
    requires forall i :: 0 <= i < |keys| ==> keys[i] in m
    ensures |es| == |keys|
    ensures forall i :: 0 <= i < |keys| ==> es[i] == Logic(EQUALS, [], m[keys[i]], Some(keys[i]))
  {
    if keys == [] then []
    else EqualsOperands(keys[..|keys| - 1], m) + [Logic(EQUALS, [], m[keys[|keys| - 1]], Some(keys[|keys| - 1]))]
  }

  /** A tuple field that `evalEQUALS` can read: present and not null. */
  predicate Readable(t: Fields, k: string)
  {
    k in t && t[k] != Null
  }

  /**
   * The compiled tree holds exactly when every template field is present in
   * the tuple, not null, and equal; it throws only if some template field is
   * missing (or null) in the tuple; when every template field is readable it
   * is the plain `containsAll` test, whatever the iteration order.
   */
  lemma CompiledMeaning(keys: seq<string>, m: Fields, t: Fields)
    requires Enumerates(keys, m.Keys)
    ensures Eval(Compiled(keys, m), t) == Ok(true) <==> forall k :: k in m ==> Readable(t, k) && t[k] == m[k]
    ensures Eval(Compiled(keys, m), t).Err? ==> exists k :: k in m && !Readable(t, k)
    ensures (forall k :: k in m ==> Readable(t, k)) ==> Eval(Compiled(keys, m), t) == Ok(ContainsAll(t, m))
  {
    var root := Compiled(keys, m);
    AndMeaning(root, 0, t);
    assert Eval(root, t) == EvalAnd(root, 0, t);
    forall i | 0 <= i < |keys|
      ensures Eval(root.elements[i], t) == Ok(true) <==> Readable(t, keys[i]) && t[keys[i]] == m[keys[i]]
      ensures Eval(root.elements[i], t).Err? <==> !Readable(t, keys[i])
    {
      assert Eval(root.elements[i], t) == EvalEquals(root.elements[i], t);
    }
    if Eval(root, t) == Ok(true) {
      forall k | k in m ensures Readable(t, k) && t[k] == m[k] {
        var i :| 0 <= i < |keys| && keys[i] == k;
      }
    }
    if Eval(root, t) != Ok(true) {
      var j :| StopsAt(root.elements, 0, t, true, j) && Eval(root, t) == Eval(root.elements[j], t);
      if Eval(root, t).Err? {
        assert keys[j] in m && !Readable(t, keys[j]);
      } else {
        assert !(Readable(t, keys[j]) && t[keys[j]] == m[keys[j]]);
      }
    }
  }

  /**
   * A template (impl/TemplateImpl.java). Of what it inherits from
   * `TupleImpl`, the model keeps the tag, the request id and the field map.
   */
  class TemplateImpl {
    var tag: string
    var requestId: string
    var tupleFields: FieldMap
    var constraint: Option<Logic>

    /** `TemplateImpl()`: tag "template", a fresh empty map, no constraint. */
    constructor ()
      ensures fresh(tupleFields) && tupleFields.entries == map[]
      ensures tag == TEMPLATE_TAG && requestId == "" && constraint == None
    {
      tag := TEMPLATE_TAG;
      requestId := "";
      tupleFields := new FieldMap(map[]);
      constraint := None;
    }

    /** `TemplateImpl(properties)`: keeps the caller's map itself. */
    constructor WithFields(properties: FieldMap)
      ensures tupleFields == properties
      ensures tag == TEMPLATE_TAG && requestId == "" && constraint == None
    {
      tag := TEMPLATE_TAG;
      requestId := "";
      tupleFields := properties;
      constraint := None;
    }

    function GetConstraint(): Option<Logic>
      reads this
    {
      constraint
    }

    /**
     * `compile()` as written: the tree is built from the fields in iteration
     * order `keys` and then dropped, so the constraint stays what it was.
     */
    method Compile(keys: seq<string>) returns (root: Logic)
      requires Enumerates(keys, tupleFields.entries.Keys)
      ensures root == Compiled(keys, tupleFields.entries)
      ensures GetConstraint() == old(GetConstraint())
    {
      root := Compiled(keys, tupleFields.entries);
    }

    /** `compile()` as intended: the tree built is kept as the template's constraint. */
    method CompileStored(keys: seq<string>)
      requires Enumerates(keys, tupleFields.entries.Keys)
      modifies this
      ensures tag == old(tag) && requestId == old(requestId) && tupleFields == old(tupleFields)
      ensures GetConstraint() == Some(Compiled(keys, tupleFields.entries))
    {
      constraint := Some(Compiled(keys, tupleFields.entries));
    }

    method SetRequestId(rid: string)
      modifies this
      ensures requestId == rid
      ensures tag == old(tag) && tupleFields == old(tupleFields) && constraint == old(constraint)
    {
      requestId := rid;
    }
  }

  /** A template whose `compile` was the one as written matches no tuple at all. */
  lemma UncompiledMatchesNothing(t: Fields)
    ensures Match(None, t) != Ok(true)
    ensures PrintableFields(t) ==> Match(None, t) == Ok(false)
  {
  }
}
