/**
 * Values shared by both tuple-space engines: the property maps that tuples,
 * templates and listeners carry (a Java `Map<String, Object>`), the values
 * they may hold, and the result type that stands in for Java exceptions.
 */
module Values {

  datatype Option<+T> = None | Some(value: T)

  /** The Java exceptions the modelled code can raise. */
  datatype Error =
    | UsageError        // SemiSpaceUsageException
    | ObjectError       // SemiSpaceObjectException
    | InternalError     // SemiSpaceInternalException
    | ClassCast         // ClassCastException from an unchecked cast
    | NullPointer       // NullPointerException
    | MissingMatch      // the RuntimeException thrown by DynamicAgenda.addValue
    | IndexOutOfBounds  // IndexOutOfBoundsException from a list access
    | ConcurrentModification  // ConcurrentModificationException from a fail-fast iterator

  datatype Result<+T> = Ok(value: T) | Err(error: Error)

  /** The outcome of a Java `void` method: it returns, or it throws. */
  datatype Outcome = Pass | Fail(error: Error)

  /**
   * A field value: a string, a boolean, a Java `Long` (`Num`), a Java
   * `Integer` (`Int`), the list of agent names that SemiSpace accumulates
   * under `agentName` (whose elements may be null), or an explicit null
   * stored under a key. A `Long` and an `Integer` are never `equals`, and a
   * `(Long)` cast refuses an `Integer`, so the two are kept apart.
   */
  datatype Value =
    | Null
    | Str(s: string)
    | Bool(b: bool)
    | Num(n: int)
    | Int(i: int)
    | Names(names: seq<Option<string>>)

  type Fields = map<string, Value>

  /** `Map.get`: absent keys and keys mapped to null both read as null. */
  function Get(m: Fields, k: string): (v: Value)
    ensures k !in m ==> v == Null
    ensures k in m ==> v == m[k]
  {
    if k in m then m[k] else Null
  }

  /**
   * `container.entrySet().containsAll(sub.entrySet())`: every entry of `sub`
   * occurs, with an equal value, in `container`.
   */
  predicate ContainsAll(container: Fields, sub: Fields)
  {
    forall k :: k in sub ==> k in container && container[k] == sub[k]
  }

  /** No element occurs twice in `s`. */
  predicate Distinct<T(==)>(s: seq<T>)
  {
    forall i, j :: 0 <= i < j < |s| ==> s[i] != s[j]
  }

  /**
   * `s` lists every element of `keys` exactly once: an iteration order of a
   * Java set or of a map's key set.
   */
  ghost predicate Enumerates<T>(s: seq<T>, keys: set<T>)
  {
    && Distinct(s)
    && (forall i :: 0 <= i < |s| ==> s[i] in keys)
    && (forall k :: k in keys ==> k in s)
  }

  /** A Java map object, shared by reference between its holders. */
  class FieldMap {
    var entries: Fields

    constructor (m: Fields)
      ensures entries == m
    {
      entries := m;
    }
  }

  /** Java `int` range, for the agenda's priorities. */
  const INT_MIN: int := -0x8000_0000
  const INT_MAX: int := 0x7fff_ffff

  predicate IsInt32(x: int)
  {
    INT_MIN <= x <= INT_MAX
  }

  /** Java `int` addition and subtraction wrap modulo 2^32. */
  function Wrap32(x: int): (r: int)
    ensures IsInt32(r)
    ensures IsInt32(x) ==> r == x
    ensures (r - x) % 0x1_0000_0000 == 0
  {
    (x - INT_MIN) % 0x1_0000_0000 + INT_MIN
  }
}
