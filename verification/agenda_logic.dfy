/**
 * The dynamic agenda's constraint language (impl/LogicElementImpl.java): a
 * tree of logic elements that is interpreted against a tuple's fields.
 *
 * `Logic` is the value of an element — its type code, its children, its
 * literal and its field name — and `Eval` is the interpreter, with Java's
 * `NullPointerException` as an error result. The class `LogicElement` is the
 * mutable Java object with its setters.
 */
module AgendaLogic {
  import opened Values

  /** Element type codes (api/ILogicElement.java). */
  const AND: int := 0
  const OR: int := 1
  const NOT: int := 2
  const EQUALS: int := 3
  const LITERAL: int := 4
  const FETCH: int := 5

  /** The type a fresh element has before any type setter runs. */
  const UNTYPED: int := -1

  /** One element: type code, operands, literal (null by default) and field name. */
  datatype Logic = Logic(kind: int, elements: seq<Logic>, literal: Value, fieldKey: Option<string>)

  /**
   * `eval(tuple)`: OR, AND, NOT and EQUALS are interpreted; any other type
   * (LITERAL, FETCH, or an element never typed) evaluates to false.
   */
  function Eval(e: Logic, t: Fields): (r: Result<bool>)
    decreases e, |e.elements| + 1
    ensures e.kind != AND && e.kind != OR && e.kind != NOT && e.kind != EQUALS ==> r == Ok(false)
    ensures r.Err? ==> r.error == NullPointer
  {
    if e.kind == OR then EvalOr(e, 0, t)
    else if e.kind == AND then EvalAnd(e, 0, t)
    else if e.kind == NOT then EvalNot(e, 0, t)
    else if e.kind == EQUALS then EvalEquals(e, t)
    else Ok(false)
  }

  /** `evalOR` from operand `i` on: true at the first true operand, false when none is. */
  function EvalOr(e: Logic, i: nat, t: Fields): (r: Result<bool>)
    requires i <= |e.elements|
    decreases e, |e.elements| - i
    ensures r.Err? ==> r.error == NullPointer
  {
    if i == |e.elements| then Ok(false)
    else match Eval(e.elements[i], t)
      case Err(x) => Err(x)
      case Ok(b) => if b then Ok(true) else EvalOr(e, i + 1, t)
  }

  /** `evalAND` from operand `i` on: false at the first false operand, true when none is. */
  function EvalAnd(e: Logic, i: nat, t: Fields): (r: Result<bool>)
    requires i <= |e.elements|
    decreases e, |e.elements| - i
    ensures r.Err? ==> r.error == NullPointer
  {
    if i == |e.elements| then Ok(true)
    else match Eval(e.elements[i], t)
      case Err(x) => Err(x)
      case Ok(b) => if !b then Ok(false) else EvalAnd(e, i + 1, t)
  }

  /**
   * `evalNOT` from operand `i` on: true at the first false operand; when
   * every operand is true the loop's last result (true) is returned, and
   * with no operands at all its initial value (false).
   */
  function EvalNot(e: Logic, i: nat, t: Fields): (r: Result<bool>)
    requires i <= |e.elements|
    decreases e, |e.elements| - i
    ensures r.Err? ==> r.error == NullPointer
  {
    if i == |e.elements| then Ok(|e.elements| > 0)
    else match Eval(e.elements[i], t)
      case Err(x) => Err(x)
      case Ok(b) => if !b then Ok(true) else EvalNot(e, i + 1, t)
  }

  /**
   * `evalEQUALS`: the tuple's value under the field name, compared with the
   * literal. A missing field name, a missing field or a null value in the
   * tuple is dereferenced, which throws.
   */
  function EvalEquals(e: Logic, t: Fields): (r: Result<bool>)
    ensures r.Err? <==> e.fieldKey.None? || Get(t, e.fieldKey.value).Null?
    ensures r.Err? ==> r.error == NullPointer
    ensures r.Ok? ==> (r.value <==> t[e.fieldKey.value] == e.literal)
  {
    if e.fieldKey.None? then Err(NullPointer)
    else
      var v := Get(t, e.fieldKey.value);
      if v.Null? then Err(NullPointer) else Ok(v == e.literal)
  }

  /** Every operand from `i` on evaluates to `b`. */
  ghost predicate AllFrom(es: seq<Logic>, i: nat, t: Fields, b: bool)
  {
    forall j :: i <= j < |es| ==> Eval(es[j], t) == Ok(b)
  }

  /** Operand `j` is the first one from `i` on that does not evaluate to `b`. */
  ghost predicate StopsAt(es: seq<Logic>, i: nat, t: Fields, b: bool, j: int)
  {
    i <= j < |es| && Eval(es[j], t) != Ok(b) && AllFrom(es[..j], i, t, b)
  }

  /** AND is true exactly when every operand is true; otherwise it is the first non-true operand's result. */
  lemma {:induction false} AndMeaning(e: Logic, i: nat, t: Fields)
    requires i <= |e.elements|
    ensures EvalAnd(e, i, t) == Ok(true) <==> AllFrom(e.elements, i, t, true)
    ensures EvalAnd(e, i, t) != Ok(true) ==>
      exists j :: StopsAt(e.elements, i, t, true, j) && EvalAnd(e, i, t) == Eval(e.elements[j], t)
    decreases |e.elements| - i
  {
    if i < |e.elements| {
      if Eval(e.elements[i], t) == Ok(true) {
        AndMeaning(e, i + 1, t);
        assert EvalAnd(e, i, t) == EvalAnd(e, i + 1, t);
        if EvalAnd(e, i, t) != Ok(true) {
          var j :| StopsAt(e.elements, i + 1, t, true, j) && EvalAnd(e, i + 1, t) == Eval(e.elements[j], t);
          assert StopsAt(e.elements, i, t, true, j);
        }
      } else {
        assert StopsAt(e.elements, i, t, true, i);
      }
    }
  }

  /** OR is false exactly when every operand is false; otherwise it is the first non-false operand's result. */
  lemma {:induction false} OrMeaning(e: Logic, i: nat, t: Fields)
    requires i <= |e.elements|
    ensures EvalOr(e, i, t) == Ok(false) <==> AllFrom(e.elements, i, t, false)
    ensures EvalOr(e, i, t) != Ok(false) ==>
      exists j :: StopsAt(e.elements, i, t, false, j) && EvalOr(e, i, t) == Eval(e.elements[j], t)
    decreases |e.elements| - i
  {
    if i < |e.elements| {
      if Eval(e.elements[i], t) == Ok(false) {
        OrMeaning(e, i + 1, t);
        assert EvalOr(e, i, t) == EvalOr(e, i + 1, t);
        if EvalOr(e, i, t) != Ok(false) {
          var j :| StopsAt(e.elements, i + 1, t, false, j) && EvalOr(e, i + 1, t) == Eval(e.elements[j], t);
          assert StopsAt(e.elements, i, t, false, j);
        }
      } else {
        assert StopsAt(e.elements, i, t, false, i);
      }
    }
  }

  /**
   * NOT is not a negation: it is true at the first false operand and also
   * when every operand is true, so it is false only with no operands left;
   * an operand that throws makes it throw.
   */
  lemma {:induction false} NotMeaning(e: Logic, i: nat, t: Fields)
    requires i <= |e.elements|
    ensures AllFrom(e.elements, i, t, true) ==> EvalNot(e, i, t) == Ok(|e.elements| > 0)
    ensures !AllFrom(e.elements, i, t, true) ==>
      exists j :: StopsAt(e.elements, i, t, true, j) &&
        EvalNot(e, i, t) == (if Eval(e.elements[j], t) == Ok(false) then Ok(true) else Eval(e.elements[j], t))
    ensures EvalNot(e, i, t) == Ok(false) <==> |e.elements| == 0
    decreases |e.elements| - i
  {
    if i < |e.elements| {
      if Eval(e.elements[i], t) == Ok(true) {
        NotMeaning(e, i + 1, t);
        assert EvalNot(e, i, t) == EvalNot(e, i + 1, t);
        if !AllFrom(e.elements, i, t, true) {
          assert !AllFrom(e.elements, i + 1, t, true);
          var j :| StopsAt(e.elements, i + 1, t, true, j) &&
            EvalNot(e, i + 1, t) == (if Eval(e.elements[j], t) == Ok(false) then Ok(true) else Eval(e.elements[j], t));
          assert StopsAt(e.elements, i, t, true, j);
        }
      } else {
        assert StopsAt(e.elements, i, t, true, i);
      }
    }
  }

  /** The mutable element (impl/LogicElementImpl.java); its operands are held as values. */
  class LogicElement {
    var logicType: int
    var elements: seq<Logic>
    var literal: Value
    var fieldKey: Option<string>

    /** A fresh element: untyped, no operands, null literal and field name. */
    constructor ()
      ensures Node() == Logic(UNTYPED, [], Null, None)
    {
      logicType := UNTYPED;
      elements := [];
      literal := Null;
      fieldKey := None;
    }

    /** The element's current value. */
    function Node(): Logic
      reads this
    {
      Logic(logicType, elements, literal, fieldKey)
    }

    /** `isOrType()` and its siblings set the type code and nothing else. */
    method IsOrType()
      modifies this
      ensures Node() == old(Node()).(kind := OR)
    {
      logicType := OR;
    }

    method IsAndType()
      modifies this
      ensures Node() == old(Node()).(kind := AND)
    {
      logicType := AND;
    }

    method IsNotType()
      modifies this
      ensures Node() == old(Node()).(kind := NOT)
    {
      logicType := NOT;
    }

    method IsEqualsType()
      modifies this
      ensures Node() == old(Node()).(kind := EQUALS)
    {
      logicType := EQUALS;
    }

    method IsLiteralType()
      modifies this
      ensures Node() == old(Node()).(kind := LITERAL)
    {
      logicType := LITERAL;
    }

    method IsFetchType()
      modifies this
      ensures Node() == old(Node()).(kind := FETCH)
    {
      logicType := FETCH;
    }

    /** `eval(tuple)` on the element's current value. */
    function Evaluate(t: Fields): (r: Result<bool>)
      reads this
      ensures logicType == AND ==> (r == Ok(true) <==> AllFrom(elements, 0, t, true))
      ensures logicType == OR ==> (r == Ok(false) <==> AllFrom(elements, 0, t, false))
      ensures logicType == NOT ==> (r == Ok(false) <==> elements == [])
      ensures logicType == EQUALS ==> (r.Err? <==> fieldKey.None? || Get(t, fieldKey.value).Null?)
      ensures logicType !in {AND, OR, NOT, EQUALS} ==> r == Ok(false)
    {
      var e := Node();
      AndMeaning(e, 0, t);
      OrMeaning(e, 0, t);
      NotMeaning(e, 0, t);
      Eval(e, t)
    }

    /** `addElement(operand)` appends an operand. */
    method AddElement(operand: Logic)
      modifies this
      ensures Node() == old(Node()).(elements := old(elements) + [operand])
    {
      elements := elements + [operand];
    }

    /** `clearElements()` drops the operands and the literal, keeping type and field name. */
    method ClearElements()
      modifies this
      ensures Node() == old(Node()).(elements := [], literal := Null)
    {
      elements := [];
      literal := Null;
    }

    method SetLiteral(v: Value)
      modifies this
      ensures Node() == old(Node()).(literal := v)
      ensures GetLiteral() == v
    {
      literal := v;
    }

    function GetLiteral(): Value
      reads this
    {
      literal
    }

    /** `isLiteral()`: whether the type code is LITERAL. */
    function IsLiteral(): (r: bool)
      reads this
      ensures r <==> logicType == LITERAL
    {
      logicType == LITERAL
    }

    method SetFieldName(name: Option<string>)
      modifies this
      ensures Node() == old(Node()).(fieldKey := name)
      ensures GetFieldName() == name
    {
      fieldKey := name;
    }

    function GetFieldName(): Option<string>
      reads this
    {
      fieldKey
    }
  }
}
