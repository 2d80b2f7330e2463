/**
 * SemiSpace template matching (org/semispace/SemiSpace.java, `hasSubSet`)
 * and the first-fit scan of one bucket that evicts expired tuples on its way
 * (`findLeaseForTemplate`), stated as functions on values.
 *
 * `Match` is what one call of `hasSubSet` does to its three inputs: the
 * verdict (or the exception), the tuple's map after the agent-name stamp,
 * and the caller's template map after the keys it removes and puts back.
 * `Scan` is the iterator loop over a bucket listing.
 */
module SemiMatch {
  import opened Values
  import opened SemiTuple
  import opened SemiBucket

  /** One call of `hasSubSet`: verdict, tuple map afterwards, template map afterwards. */
  datatype MatchResult = MatchResult(outcome: Result<bool>, tuple: Fields, template: Fields)

  /** The template's agent name, cast to `String` (null when absent). */
  function AgentOf(template: Fields): (r: Result<Option<string>>)
    ensures r.Ok? <==> Get(template, AGENT_NAME_KEY).Str? || Get(template, AGENT_NAME_KEY).Null?
    ensures r.Ok? && r.value.Some? ==> Get(template, AGENT_NAME_KEY) == Str(r.value.value)
    ensures r.Ok? && r.value.None? ==> Get(template, AGENT_NAME_KEY) == Null
  {
    match Get(template, AGENT_NAME_KEY)
    case Str(s) => Ok(Some(s))
    case Null => Ok(None)
    case _ => Err(ClassCast)
  }

  /**
   * Whether the tuple's `agentName` entry already names `name`: an equal
   * string, or a list that contains it. Any other non-null value fails the
   * `List` cast.
   */
  function SeenBy(tuple: Fields, name: string): (r: Result<bool>)
    ensures r == Ok(true) <==>
      Get(tuple, AGENT_NAME_KEY) == Str(name) ||
      (Get(tuple, AGENT_NAME_KEY).Names? && Some(name) in Get(tuple, AGENT_NAME_KEY).names)
    ensures r.Err? <==> !(Get(tuple, AGENT_NAME_KEY).Null? || Get(tuple, AGENT_NAME_KEY).Str? || Get(tuple, AGENT_NAME_KEY).Names?)
  {
    match Get(tuple, AGENT_NAME_KEY)
    case Null => Ok(false)
    case Str(s) => Ok(s == name)
    case Names(ns) => Ok(Some(name) in ns)
    case _ => Err(ClassCast)
  }

  /**
   * `hasSubSet(tuple.entrySet(), template, isTake, tuple, theTuple)`:
   * removes `id` from the template for good; a read whose template names an
   * agent fails at once if the tuple already records that agent; otherwise
   * `agentName` is taken out, the remaining template entries are compared
   * with the tuple's, the name is put back if it was non-null, and a match
   * appends the name to the tuple's list.
   */
  function Match(tuple: Fields, template: Fields, isTake: bool): MatchResult
  {
    var t1 := template - {ID_KEY};
    match AgentOf(t1)
    case Err(e) => MatchResult(Err(e), tuple, t1)
    case Ok(name) =>
      var seen := if !isTake && name.Some? then SeenBy(tuple, name.value) else Ok(false);
      if seen.Err? then MatchResult(Err(seen.error), tuple, t1)
      else if seen.value then MatchResult(Ok(false), tuple, t1)
      else
        var t2 := t1 - {AGENT_NAME_KEY};
        var t3 := if name.Some? then t2[AGENT_NAME_KEY := Str(name.value)] else t2;
        if !ContainsAll(tuple, t2) then MatchResult(Ok(false), tuple, t3)
        else match WithAgentName(tuple, name)
          case Err(e) => MatchResult(Err(e), tuple, t3)
          case Ok(m) => MatchResult(Ok(true), m, t3)
  }

  /** The agent name a match stamps on the tuple: the template's, or null. */
  function StampName(template: Fields): Option<string>
  {
    if Get(template, AGENT_NAME_KEY).Str? then Some(Get(template, AGENT_NAME_KEY).s) else None
  }

  /** A read by an agent that the tuple already records. */
  predicate Seen(tuple: Fields, template: Fields, isTake: bool)
  {
    !isTake && Get(template, AGENT_NAME_KEY).Str? && SeenBy(tuple, Get(template, AGENT_NAME_KEY).s) == Ok(true)
  }

  /**
   * The template map after any call whose agent-name cast succeeded: `id`
   * removed, and `agentName` removed too unless it is a string.
   */
  function Normal(template: Fields): (r: Fields)
    ensures ID_KEY !in r
    ensures forall k :: k != AGENT_NAME_KEY ==> (k in r <==> k in template && k != ID_KEY)
    ensures forall k :: k in r ==> k in template && r[k] == template[k]
    ensures AGENT_NAME_KEY in r <==> Get(template, AGENT_NAME_KEY).Str?
  {
    var t1 := template - {ID_KEY};
    if Get(t1, AGENT_NAME_KEY).Str? then t1 else t1 - {AGENT_NAME_KEY}
  }

  /** A read by an agent the tuple already records fails before any field is compared. */
  lemma MatchSeenFails(tuple: Fields, template: Fields, isTake: bool)
    requires Seen(tuple, template, isTake)
    ensures Match(tuple, template, isTake) == MatchResult(Ok(false), tuple, template - {ID_KEY})
  {
  }

  /**
   * Without an exception, the verdict is: not already seen, and every
   * template entry other than `id` and `agentName` is in the tuple with an
   * equal value (explicit nulls included).
   */
  lemma MatchVerdict(tuple: Fields, template: Fields, isTake: bool)
    ensures Match(tuple, template, isTake).outcome.Ok? ==>
      (Match(tuple, template, isTake).outcome.value <==>
        !Seen(tuple, template, isTake) && ContainsAll(tuple, template - {ID_KEY, AGENT_NAME_KEY}))
  {
    assert template - {ID_KEY} - {AGENT_NAME_KEY} == template - {ID_KEY, AGENT_NAME_KEY};
  }

  /**
   * The exceptions: the template's agent name is not a string, the tuple's
   * agent entry fails its cast on a read, or the stamp meets an agent entry
   * that is not a list. An exception leaves the tuple untouched.
   */
  lemma MatchErrors(tuple: Fields, template: Fields, isTake: bool)
    ensures Match(tuple, template, isTake).outcome.Err? ==>
      Match(tuple, template, isTake).outcome.error == ClassCast && Match(tuple, template, isTake).tuple == tuple
    ensures !(Get(template, AGENT_NAME_KEY).Str? || Get(template, AGENT_NAME_KEY).Null?) ==>
      Match(tuple, template, isTake).outcome == Err(ClassCast)
    ensures (Get(template, AGENT_NAME_KEY).Str? || Get(template, AGENT_NAME_KEY).Null?) &&
            (Get(tuple, AGENT_NAME_KEY).Null? || Get(tuple, AGENT_NAME_KEY).Names?) ==>
      Match(tuple, template, isTake).outcome.Ok?
  {
    assert Get(template - {ID_KEY}, AGENT_NAME_KEY) == Get(template, AGENT_NAME_KEY);
  }

  /**
   * A match appends the template's agent name to the tuple's list (for takes
   * too, and null when the template names no agent) and changes no other
   * entry; no other outcome touches the tuple.
   */
  lemma MatchStamps(tuple: Fields, template: Fields, isTake: bool)
    ensures var r := Match(tuple, template, isTake);
      && (r.outcome == Ok(true) ==>
            && AgentNames(r.tuple) == AgentNames(tuple) + [StampName(template)]
            && r.tuple.Keys == tuple.Keys + {AGENT_NAME_KEY}
            && forall k :: k in tuple && k != AGENT_NAME_KEY ==> r.tuple[k] == tuple[k])
      && (r.outcome != Ok(true) ==> r.tuple == tuple)
  {
    assert Get(template - {ID_KEY}, AGENT_NAME_KEY) == Get(template, AGENT_NAME_KEY);
  }

  /**
   * The template loses `id` on every call; once the agent-name cast has
   * succeeded it is `Normal(template)`, so a non-null name is put back and an
   * explicit null one is lost.
   */
  lemma MatchTemplate(tuple: Fields, template: Fields, isTake: bool)
    ensures ID_KEY !in Match(tuple, template, isTake).template
    ensures AgentOf(template).Ok? ==> Match(tuple, template, isTake).template == Normal(template)
    ensures AgentOf(template).Err? ==> Match(tuple, template, isTake).template == template - {ID_KEY}
  {
    var t1 := template - {ID_KEY};
    assert Get(t1, AGENT_NAME_KEY) == Get(template, AGENT_NAME_KEY);
    if AgentOf(template).Ok? && AgentOf(template).value.Some? {
      var t2 := t1 - {AGENT_NAME_KEY};
      assert t2[AGENT_NAME_KEY := Str(AgentOf(template).value.value)] == t1;
    }
  }

  /** Matching against the normalised template is matching against the original. */
  lemma MatchNormal(tuple: Fields, template: Fields, isTake: bool)
    requires AgentOf(template).Ok?
    ensures Match(tuple, Normal(template), isTake) == Match(tuple, template, isTake)
  {
    var n := Normal(template);
    assert Get(n, AGENT_NAME_KEY) == Get(template, AGENT_NAME_KEY);
    assert n - {ID_KEY} - {AGENT_NAME_KEY} == template - {ID_KEY} - {AGENT_NAME_KEY};
    MatchTemplate(tuple, template, isTake);
    MatchTemplate(tuple, n, isTake);
    assert Normal(n) == n;
  }

  /** What one scan of a bucket listing yields. */
  datatype ScanResult = ScanResult(evicted: seq<int>, found: Result<Option<Entry>>, template: Fields)

  /**
   * The loop of `findLeaseForTemplate` over a bucket listing, at clock
   * reading `now`: expired tuples are put on the eviction list and skipped,
   * the others are matched until the first match, which is returned with its
   * map as stamped. An exception abandons the scan before any eviction.
   */
  function Scan(es: seq<Entry>, template: Fields, isTake: bool, now: int): ScanResult
    decreases |es|
  {
    if es == [] then ScanResult([], Ok(None), template)
    else
      var e := es[0];
      if e.liveUntil < now then
        var r := Scan(es[1..], template, isTake, now);
        if r.found.Err? then r else r.(evicted := [e.id] + r.evicted)
      else
        var m := Match(e.fields, template, isTake);
        if m.outcome.Err? then ScanResult([], Err(m.outcome.error), m.template)
        else if m.outcome.value then ScanResult([], Ok(Some(e.(fields := m.tuple))), m.template)
        else Scan(es[1..], m.template, isTake, now)
  }

  /** Prepends evictions made before the rest of a scan (an exception drops them). */
  function Prepend(ev: seq<int>, r: ScanResult): ScanResult
  {
    if r.found.Err? then r else r.(evicted := ev + r.evicted)
  }

  /** One step of the scan from position `i`: an expired tuple is evicted and skipped. */
  lemma ScanExpiredStep(es: seq<Entry>, i: int, template: Fields, isTake: bool, now: int, ev: seq<int>)
    requires 0 <= i < |es| && es[i].liveUntil < now
    ensures Prepend(ev, Scan(es[i..], template, isTake, now))
         == Prepend(ev + [es[i].id], Scan(es[i + 1..], template, isTake, now))
  {
    assert es[i..][0] == es[i] && es[i..][1..] == es[i + 1..];
    var rest := Scan(es[i + 1..], template, isTake, now);
    if rest.found.Ok? {
      assert ev + ([es[i].id] + rest.evicted) == (ev + [es[i].id]) + rest.evicted;
    }
  }

  /** One step of the scan from position `i`: a live tuple is matched. */
  lemma ScanLiveStep(es: seq<Entry>, i: int, template: Fields, isTake: bool, now: int, ev: seq<int>)
    requires 0 <= i < |es| && es[i].liveUntil >= now
    ensures var m := Match(es[i].fields, template, isTake);
      && (m.outcome.Err? ==>
            Prepend(ev, Scan(es[i..], template, isTake, now)) == ScanResult([], Err(m.outcome.error), m.template))
      && (m.outcome == Ok(true) ==>
            Prepend(ev, Scan(es[i..], template, isTake, now)) == ScanResult(ev, Ok(Some(es[i].(fields := m.tuple))), m.template))
      && (m.outcome == Ok(false) ==>
            Prepend(ev, Scan(es[i..], template, isTake, now)) == Prepend(ev, Scan(es[i + 1..], m.template, isTake, now)))
  {
    assert es[i..][0] == es[i] && es[i..][1..] == es[i + 1..];
    assert ev + [] == ev;
  }

  /** The scan of an exhausted listing finds nothing and evicts nothing. */
  lemma ScanExhausted(es: seq<Entry>, template: Fields, isTake: bool, now: int, ev: seq<int>)
    ensures Prepend(ev, Scan(es[|es|..], template, isTake, now)) == ScanResult(ev, Ok(None), template)
  {
    assert es[|es|..] == [];
    assert ev + [] == ev;
  }

  /** The ids of the expired tuples of a listing, in listing order. */
  function ExpiredIds(es: seq<Entry>, now: int): (r: seq<int>)
    ensures |r| <= |es|
    ensures forall x :: x in r <==> exists k :: 0 <= k < |es| && es[k].id == x && es[k].liveUntil < now
  {
    if es == [] then []
    else
      var rest := ExpiredIds(es[1..], now);
      assert forall k :: 0 <= k < |es[1..]| ==> es[1..][k] == es[k + 1];
      if es[0].liveUntil < now then [es[0].id] + rest else rest
  }

  /** Position `k` is the first live tuple of the listing that matches. */
  ghost predicate FirstFit(es: seq<Entry>, k: int, template: Fields, isTake: bool, now: int)
    requires 0 <= k < |es|
  {
    && es[k].liveUntil >= now
    && Match(es[k].fields, template, isTake).outcome == Ok(true)
    && forall j :: 0 <= j < k ==> es[j].liveUntil < now || Match(es[j].fields, template, isTake).outcome == Ok(false)
  }

  /** Every template a match leaves behind matches exactly as the original did. */
  lemma MatchesAgree(template: Fields, isTake: bool)
    requires AgentOf(template).Ok?
    ensures forall x :: Match(x, Normal(template), isTake) == Match(x, template, isTake)
  {
    forall x {
      MatchNormal(x, template, isTake);
    }
  }

  /**
   * A scan that does not throw at its first live tuple has passed the
   * agent-name cast, so the rest of the scan runs on `Normal(template)`.
   */
  lemma ScanStep(e: Entry, template: Fields, isTake: bool, now: int)
    requires e.liveUntil >= now && Match(e.fields, template, isTake).outcome.Ok?
    ensures AgentOf(template).Ok?
    ensures Match(e.fields, template, isTake).template == Normal(template)
  {
    MatchTemplate(e.fields, template, isTake);
    if AgentOf(template).Err? {
      MatchErrors(e.fields, template, isTake);
    }
  }

  /**
   * A scan that finds nothing evicts every expired tuple, and no live tuple
   * matched; an exception evicts nothing.
   */
  lemma {:induction false} ScanMisses(es: seq<Entry>, template: Fields, isTake: bool, now: int)
    ensures Scan(es, template, isTake, now).found.Err? ==> Scan(es, template, isTake, now).evicted == []
    ensures Scan(es, template, isTake, now).found == Ok(None) ==>
      && Scan(es, template, isTake, now).evicted == ExpiredIds(es, now)
      && forall k :: 0 <= k < |es| && es[k].liveUntil >= now ==>
           Match(es[k].fields, template, isTake).outcome == Ok(false)
    decreases |es|
  {
    if es != [] {
      var e := es[0];
      var tail := es[1..];
      assert forall k :: 0 < k < |es| ==> es[k] == tail[k - 1];
      if e.liveUntil < now {
        ScanMisses(tail, template, isTake, now);
      } else if Match(e.fields, template, isTake).outcome == Ok(false) {
        ScanStep(e, template, isTake, now);
        MatchesAgree(template, isTake);
        ScanMisses(tail, Normal(template), isTake, now);
      }
    }
  }

  /** The scan result `r` is the tuple at position `k`, stamped, after evicting the expired ones before it. */
  ghost predicate FoundAt(es: seq<Entry>, k: int, template: Fields, isTake: bool, now: int, r: ScanResult)
    requires 0 <= k < |es|
  {
    && FirstFit(es, k, template, isTake, now)
    && r.found == Ok(Some(es[k].(fields := Match(es[k].fields, template, isTake).tuple)))
    && r.evicted == ExpiredIds(es[..k], now)
  }

  /**
   * A scan that finds a tuple finds the first live one that matches,
   * returns it with its map as stamped, and evicts exactly the expired
   * tuples before it.
   */
  lemma {:induction false} ScanFinds(es: seq<Entry>, template: Fields, isTake: bool, now: int)
    requires Scan(es, template, isTake, now).found.Ok? && Scan(es, template, isTake, now).found.value.Some?
    ensures exists k :: 0 <= k < |es| && FoundAt(es, k, template, isTake, now, Scan(es, template, isTake, now))
    decreases |es|
  {
    var e := es[0];
    var m := Match(e.fields, template, isTake);
    if e.liveUntil >= now && m.outcome == Ok(true) {
      assert es[..0] == [];
      assert FoundAt(es, 0, template, isTake, now, Scan(es, template, isTake, now));
    } else {
      var t := template;
      if e.liveUntil >= now {
        ScanStep(e, template, isTake, now);
        MatchesAgree(template, isTake);
        t := Normal(template);
      }
      ScanFinds(es[1..], t, isTake, now);
      var k :| 0 <= k < |es[1..]| && FoundAt(es[1..], k, t, isTake, now, Scan(es[1..], t, isTake, now));
      FoundAtShift(es, k, template, t, isTake, now);
    }
  }

  /** Finding at `k` in the tail of a listing whose head was skipped is finding at `k + 1`. */
  lemma FoundAtShift(es: seq<Entry>, k: int, template: Fields, t: Fields, isTake: bool, now: int)
    requires 0 <= k < |es| - 1
    requires es[0].liveUntil < now ==> t == template
    requires es[0].liveUntil >= now ==>
      Match(es[0].fields, template, isTake).outcome == Ok(false) && Match(es[0].fields, template, isTake).template == t
    requires forall x :: Match(x, t, isTake) == Match(x, template, isTake)
    requires FoundAt(es[1..], k, t, isTake, now, Scan(es[1..], t, isTake, now))
    ensures FoundAt(es, k + 1, template, isTake, now, Scan(es, template, isTake, now))
  {
    var tail := es[1..];
    assert es[..k + 1][1..] == tail[..k];
    assert forall j :: 0 < j < |es| ==> es[j] == tail[j - 1];
  }

  /**
   * In a listing with distinct ids, the evicted ids are distinct, are ids of
   * the listing, and differ from the id of the tuple found.
   */
  lemma {:induction false} ExpiredIdsDistinct(es: seq<Entry>, now: int)
    requires forall i, j :: 0 <= i < j < |es| ==> es[i].id != es[j].id
    ensures Distinct(ExpiredIds(es, now))
    decreases |es|
  {
    if es != [] {
      var tail := es[1..];
      assert forall k :: 0 <= k < |tail| ==> tail[k] == es[k + 1];
      ExpiredIdsDistinct(tail, now);
      var rest := ExpiredIds(tail, now);
      if es[0].liveUntil < now {
        assert es[0].id !in rest;
        var r := [es[0].id] + rest;
        forall i, j | 0 <= i < j < |r| ensures r[i] != r[j] {
          if i > 0 {
            assert r[i] == rest[i - 1] && r[j] == rest[j - 1];
          } else {
            assert r[j] in rest;
          }
        }
      }
    }
  }

  /**
   * In a listing with distinct ids, the tuples expired before position `k`
   * have distinct ids, each listed before `k` and none that of position `k`.
   */
  lemma ExpiredBefore(es: seq<Entry>, k: int, now: int)
    requires forall i, j :: 0 <= i < j < |es| ==> es[i].id != es[j].id
    requires 0 <= k <= |es|
    ensures Distinct(ExpiredIds(es[..k], now))
    ensures forall x :: x in ExpiredIds(es[..k], now) ==> exists j :: 0 <= j < k && es[j].id == x
    ensures k < |es| ==> es[k].id !in ExpiredIds(es[..k], now)
  {
    var pre := es[..k];
    assert forall j :: 0 <= j < k ==> pre[j] == es[j];
    ExpiredIdsDistinct(pre, now);
  }

  /** In a listing with distinct ids, a scan evicts distinct ids of the listing, whatever it finds. */
  lemma ScanEvictsListed(es: seq<Entry>, template: Fields, isTake: bool, now: int)
    requires forall i, j :: 0 <= i < j < |es| ==> es[i].id != es[j].id
    ensures var r := Scan(es, template, isTake, now);
      Distinct(r.evicted) && forall x :: x in r.evicted ==> exists j :: 0 <= j < |es| && es[j].id == x
  {
    var r := Scan(es, template, isTake, now);
    ScanMisses(es, template, isTake, now);
    if r.found.Ok? && r.found.value.Some? {
      ScanFinds(es, template, isTake, now);
      var k :| 0 <= k < |es| && FoundAt(es, k, template, isTake, now, r);
      ExpiredBefore(es, k, now);
    } else if r.found.Ok? {
      assert es[..|es|] == es;
      ExpiredBefore(es, |es|, now);
    }
  }

  /** Matching never touches the template's tag, so neither does a scan. */
  lemma {:induction false} ScanKeepsTag(es: seq<Entry>, template: Fields, isTake: bool, now: int)
    ensures Get(Scan(es, template, isTake, now).template, TAG_KEY) == Get(template, TAG_KEY)
    decreases |es|
  {
    if es != [] {
      var m := Match(es[0].fields, template, isTake);
      assert Get(m.template, TAG_KEY) == Get(template, TAG_KEY);
      ScanKeepsTag(es[1..], template, isTake, now);
      ScanKeepsTag(es[1..], m.template, isTake, now);
    }
  }
}
