/**
 * The SemiSpace tuple (org/semispace/Tuple.java): an id, a tag, a lease
 * expiry and a property map that mirrors the id, the tag and the priority.
 *
 * The class `Tuple` models the Java object with its setters; `Entry` is the
 * value of a tuple as the store holds it (see the store modules).
 */
module SemiTuple {
  import opened Values

  /** Property keys (org/semispace/api/ITupleFields.java is not part of this model). */
  const ID_KEY: string := "id"
  const TAG_KEY: string := "tag"
  const PRIORITY_KEY: string := "priority"
  const AGENT_NAME_KEY: string := "agentName"

  /** `Long.MAX_VALUE`, the default lease expiry. */
  const FOREVER: int := 0x7fff_ffff_ffff_ffff

  /** A stored tuple: the id it is filed under, its tag, lease expiry and fields. */
  datatype Entry = Entry(id: int, tag: Option<string>, liveUntil: int, fields: Fields)

  /** The map value written for a (possibly null) tag. */
  function TagValue(tag: Option<string>): Value
  {
    if tag.Some? then Str(tag.value) else Null
  }

  /** The property map after `setId(id)` followed by `setTag(tag)`. */
  function Stamped(m: Fields, id: int, tag: Option<string>): (r: Fields)
    ensures r.Keys == m.Keys + {ID_KEY, TAG_KEY}
    ensures r[ID_KEY] == Num(id) && r[TAG_KEY] == TagValue(tag)
    ensures forall k :: k in m && k != ID_KEY && k != TAG_KEY ==> r[k] == m[k]
  {
    m[ID_KEY := Num(id)][TAG_KEY := TagValue(tag)]
  }

  /**
   * `getId()`: the id field, unless it is -1, in which case the map's `id`
   * entry (cast to Long) is used; with no such entry the answer stays -1.
   */
  function IdOf(id: int, m: Fields): (r: Result<int>)
    ensures id != -1 ==> r == Ok(id)
    ensures id == -1 && Get(m, ID_KEY).Num? ==> r == Ok(Get(m, ID_KEY).n)
    ensures id == -1 && Get(m, ID_KEY).Null? ==> r == Ok(-1)
    ensures r.Err? <==> id == -1 && !Get(m, ID_KEY).Num? && !Get(m, ID_KEY).Null?
  {
    if id != -1 then Ok(id)
    else match Get(m, ID_KEY)
      case Null => Ok(-1)
      case Num(n) => Ok(n)
      case _ => Err(ClassCast)
  }

  /** The agent names a map records under `agentName` (none unless it is a list). */
  function AgentNames(m: Fields): seq<Option<string>>
  {
    if Get(m, AGENT_NAME_KEY).Names? then Get(m, AGENT_NAME_KEY).names else []
  }

  /**
   * `addAgentName(name)` on a property map: a missing (or null) list is
   * created empty, then the name is appended, null and duplicates included.
   * An `agentName` entry that is not a list fails the `List` cast.
   */
  function WithAgentName(m: Fields, name: Option<string>): (r: Result<Fields>)
    ensures r.Ok? <==> Get(m, AGENT_NAME_KEY).Null? || Get(m, AGENT_NAME_KEY).Names?
    ensures r.Ok? ==> AGENT_NAME_KEY in r.value && r.value[AGENT_NAME_KEY].Names?
    ensures r.Ok? ==> AgentNames(r.value) == AgentNames(m) + [name]
    ensures r.Ok? ==> r.value.Keys == m.Keys + {AGENT_NAME_KEY}
    ensures r.Ok? ==> forall k :: k in m && k != AGENT_NAME_KEY ==> r.value[k] == m[k]
  {
    match Get(m, AGENT_NAME_KEY)
    case Null => Ok(m[AGENT_NAME_KEY := Names([name])])
    case Names(ns) => Ok(m[AGENT_NAME_KEY := Names(ns + [name])])
    case _ => Err(ClassCast)
  }

  /** `getPriority()`: the `priority` entry cast to Long (null when absent). */
  function PriorityOf(m: Fields): (r: Result<Option<int>>)
    ensures Get(m, PRIORITY_KEY).Num? ==> r == Ok(Some(Get(m, PRIORITY_KEY).n))
    ensures Get(m, PRIORITY_KEY).Null? ==> r == Ok(None)
    ensures r.Err? <==> !Get(m, PRIORITY_KEY).Num? && !Get(m, PRIORITY_KEY).Null?
  {
    match Get(m, PRIORITY_KEY)
    case Null => Ok(None)
    case Num(n) => Ok(Some(n))
    case _ => Err(ClassCast)
  }

  /** The value `setPriority(p)` stores for a (possibly null) Long. */
  function PriorityValue(p: Option<int>): Value
  {
    if p.Some? then Num(p.value) else Null
  }

  /** Setting and reading back the priority round-trips, null included. */
  lemma PriorityRoundTrip(m: Fields, p: Option<int>)
    ensures PriorityOf(m[PRIORITY_KEY := PriorityValue(p)]) == Ok(p)
  {
  }

  class Tuple {
    var liveUntil: int
    var id: int
    var tag: Option<string>
    var searchMap: FieldMap

    /** `Tuple(json, liveUntil, tag, id, map)`: keeps the caller's map and stamps id and tag into it. */
    constructor WithLease(liveUntil: int, tag: Option<string>, id: int, map0: FieldMap)
      modifies map0
      ensures searchMap == map0
      ensures this.liveUntil == liveUntil && this.id == id && this.tag == tag
      ensures map0.entries == Stamped(old(map0.entries), id, tag)
    {
      this.liveUntil := liveUntil;
      this.id := id;
      this.tag := tag;
      searchMap := map0;
      new;
      map0.entries := Stamped(map0.entries, id, tag);
    }

    /** `Tuple(id, tag)`: a fresh map holding only the id and the tag. */
    constructor Create(id: int, tag: Option<string>)
      ensures fresh(searchMap)
      ensures liveUntil == FOREVER && this.id == id && this.tag == tag
      ensures searchMap.entries == map[ID_KEY := Num(id), TAG_KEY := TagValue(tag)]
    {
      liveUntil := FOREVER;
      this.id := id;
      this.tag := tag;
      searchMap := new FieldMap(Stamped(map[], id, tag));
    }

    /** `Tuple(id, tag, props)`: keeps the caller's map and stamps id and tag into it. */
    constructor WithProps(id: int, tag: Option<string>, props: FieldMap)
      modifies props
      ensures searchMap == props
      ensures liveUntil == FOREVER && this.id == id && this.tag == tag
      ensures props.entries == Stamped(old(props.entries), id, tag)
    {
      liveUntil := FOREVER;
      this.id := id;
      this.tag := tag;
      searchMap := props;
      new;
      props.entries := Stamped(props.entries, id, tag);
    }

    function GetId(): (r: Result<int>)
      reads this, searchMap
    {
      IdOf(id, searchMap.entries)
    }

    method SetId(newId: int)
      modifies this, searchMap
      ensures id == newId && searchMap == old(searchMap)
      ensures searchMap.entries == old(searchMap.entries)[ID_KEY := Num(newId)]
      ensures tag == old(tag) && liveUntil == old(liveUntil)
      ensures GetId() == Ok(newId)
    {
      id := newId;
      searchMap.entries := searchMap.entries[ID_KEY := Num(newId)];
    }

    method SetTag(newTag: Option<string>)
      modifies this, searchMap
      ensures tag == newTag && searchMap == old(searchMap)
      ensures searchMap.entries == old(searchMap.entries)[TAG_KEY := TagValue(newTag)]
      ensures id == old(id) && liveUntil == old(liveUntil)
    {
      tag := newTag;
      searchMap.entries := searchMap.entries[TAG_KEY := TagValue(newTag)];
    }

    method Set(name: string, v: Value)
      modifies searchMap
      ensures searchMap.entries == old(searchMap.entries)[name := v]
      ensures Get(name) == v
    {
      searchMap.entries := searchMap.entries[name := v];
    }

    function Get(name: string): Value
      reads this, searchMap
    {
      Values.Get(searchMap.entries, name)
    }

    method SetPriority(p: Option<int>)
      modifies searchMap
      ensures searchMap.entries == old(searchMap.entries)[PRIORITY_KEY := PriorityValue(p)]
      ensures GetPriority() == Ok(p)
    {
      Set(PRIORITY_KEY, PriorityValue(p));
      PriorityRoundTrip(old(searchMap.entries), p);
    }

    function GetPriority(): Result<Option<int>>
      reads this, searchMap
    {
      PriorityOf(searchMap.entries)
    }

    function GetLiveUntil(): int
      reads this
    {
      liveUntil
    }

    method SetLiveUntil(t: int)
      modifies this
      ensures liveUntil == t && GetLiveUntil() == t
      ensures id == old(id) && tag == old(tag) && searchMap == old(searchMap)
    {
      liveUntil := t;
    }

    /** Appends a name to the `agentName` list, creating the list if needed. */
    method AddAgentName(name: Option<string>) returns (r: Outcome)
      modifies searchMap
      ensures r.Pass? <==> WithAgentName(old(searchMap.entries), name).Ok?
      ensures r.Pass? ==> searchMap.entries == WithAgentName(old(searchMap.entries), name).value
      ensures r.Fail? ==> r.error == ClassCast && searchMap.entries == old(searchMap.entries)
    {
      var updated := WithAgentName(searchMap.entries, name);
      if updated.Err? {
        return Fail(ClassCast);
      }
      searchMap.entries := updated.value;
      r := Pass;
    }

    /** The value the store files for this tuple under id `key`. */
    function Snapshot(key: int): (e: Entry)
      reads this, searchMap
      ensures e.id == key && e.tag == tag && e.liveUntil == liveUntil
    {
      Entry(key, tag, liveUntil, searchMap.entries)
    }
  }

  /** After any constructor the map mirrors the id and the tag, and `getId` gives the id. */
  lemma {:induction false} ConstructedMirrors(m: Fields, id: int, tag: Option<string>)
    ensures IdOf(id, Stamped(m, id, tag)) == Ok(id)
    ensures Get(Stamped(m, id, tag), TAG_KEY) == TagValue(tag)
  {
    if id == -1 {
      assert Get(Stamped(m, id, tag), ID_KEY) == Num(-1);
    }
  }
}
