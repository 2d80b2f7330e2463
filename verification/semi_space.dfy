/**
 * The SemiSpace logic layer (org/semispace/SemiSpace.java): template
 * matching, the first-fit scan with eviction, destructive take, the timeout
 * loop, write/cancel/renew of leases, the periodic harvest and the
 * statistics counters.
 *
 * The clock (`admin.calculateTime()`) is an input: one reading `now` per
 * scan, and a monotone trace of readings for the timeout loop. Listeners are
 * kept as id -> liveUntil; events are not modelled.
 */
module Space {
  import opened Values
  import opened SemiTuple
  import opened SemiBucket
  import opened SemiStore
  import opened SemiMatch
  import opened SemiScan

  class SemiSpace {
    var elements: TupleCollection
    /** Registered listeners, by id. */
    var listeners: map<int, ListenerHolder>
    var stats: Stats

    ghost predicate Valid()
      reads this, elements
    {
      && elements.Valid()
      && forall id :: id in listeners ==> listeners[id].id == id
    }

    /** A space over an empty registry, with no listeners and zeroed counters. */
    constructor ()
      ensures Valid() && fresh(elements)
      ensures elements.heads == map[] && elements.idseq == 0
      ensures listeners == map[] && stats == NoStats
    {
      elements := new TupleCollection();
      listeners := map[];
      stats := NoStats;
    }

    /**
     * `hasSubSet`: removes `id` from the template, checks the agent name,
     * compares the rest of the template with the tuple, puts a non-null agent
     * name back and stamps the tuple on a match. Returns the verdict and the
     * tuple's map afterwards.
     */
    static method HasSubSet(tuple: Fields, template: FieldMap, isTake: bool) returns (r: Result<bool>, stamped: Fields)
      modifies template
      ensures MatchResult(r, stamped, template.entries) == Match(tuple, old(template.entries), isTake)
    {
      template.entries := template.entries - {ID_KEY};
      var a := Get(template.entries, AGENT_NAME_KEY);
      if !(a.Str? || a.Null?) {
        return Err(ClassCast), tuple;
      }
      var agentName: Option<string> := if a.Str? then Some(a.s) else None;
      var result := false;
      if !isTake && agentName.Some? {
        var o := Get(tuple, AGENT_NAME_KEY);
        if o.Str? {
          result := o.s == agentName.value;
        } else if o.Names? {
          result := Some(agentName.value) in o.names;
        } else if !o.Null? {
          return Err(ClassCast), tuple;
        }
      }
      if result {
        return Ok(false), tuple;
      }
      template.entries := template.entries - {AGENT_NAME_KEY};
      result := ContainsAll(tuple, template.entries);
      if agentName.Some? {
        template.entries := template.entries[AGENT_NAME_KEY := Str(agentName.value)];
      }
      stamped := tuple;
      if result {
        var added := WithAgentName(tuple, agentName);
        if added.Err? {
          return Err(ClassCast), tuple;
        }
        stamped := added.value;
      }
      r := Ok(result);
    }

    /**
     * `findLeaseForTemplate`: casts the template's tag (a null tag is an
     * object error), walks that tag's bucket until the first match, cancels
     * the expired tuples it passed, cancels the found tuple on a take, and
     * counts the outcome.
     */
    method FindLeaseForTemplate(template: FieldMap, isTake: bool, now: int) returns (found: Result<Option<Entry>>)
      requires Valid()
      modifies elements, template, this`stats
      ensures Valid() && elements.idseq == old(elements.idseq)
      ensures !Get(old(template.entries), TAG_KEY).Str? ==>
        && found == Err(if Get(old(template.entries), TAG_KEY).Null? then ObjectError else ClassCast)
        && elements.heads == old(elements.heads) && stats == old(stats)
        && template.entries == old(template.entries)
      ensures Get(old(template.entries), TAG_KEY).Str? ==>
        var tag := Get(old(template.entries), TAG_KEY).s;
        var r := Scan(Listed(old(elements.heads), tag), old(template.entries), isTake, now);
        && found == r.found
        && template.entries == r.template
        && elements.heads == ScanStore(old(elements.heads), elements.idseq, tag, r, isTake)
        && stats == if found.Err? then old(stats) else Counted(old(stats), isTake, found.value.Some?)
    {
      var tv := Get(template.entries, TAG_KEY);
      if !(tv.Str? || tv.Null?) {
        return Err(ClassCast);
      }
      if tv.Null? {
        return Err(ObjectError);
      }
      var tag := tv.s;
      ghost var s0 := elements.heads;
      ghost var r := Scan(Listed(s0, tag), template.entries, isTake, now);
      var toEvict, hit := ScanBucket(tag, template, isTake, now);
      if hit.Err? {
        return Err(hit.error);
      }
      ScanEvictsStored(s0, tag, old(template.entries), isTake, now, r);
      if hit.value.Some? {
        ScanFoundStored(s0, tag, old(template.entries), isTake, now, r);
        UpdatedEffect(s0, tag, hit.value.value);
      }
      ghost var s1 := elements.heads;
      EvictAll(toEvict, tag);
      if hit.value.Some? && isTake {
        RemoveAllEffect(s1, elements.idseq, tag, toEvict);
        var cancelled := CancelElement(hit.value.value.id, true, tag);
        // Nothing runs between the scan and this cancel, so the tuple is
        // still there and the source's rescan branch is never taken.
        assert cancelled;
      }
      stats := Counted(stats, isTake, hit.value.Some?);
      found := hit;
    }

    /**
     * `findOrWaitLeaseForTemplate(template, timeout, isTake)`: the tag is
     * cast before the loop; then attempts run as `Attempts` describes, at the
     * given clock readings. Returns the result and the number of attempts.
     */
    method FindOrWaitLeaseForTemplate(template: FieldMap, timeout: int, isTake: bool, clock: seq<int>)
      returns (found: Result<Option<Entry>>, attempts: int)
      requires Valid() && ClockOk(clock, timeout)
      modifies elements, template, this`stats
      ensures Valid() && elements.idseq == old(elements.idseq)
      ensures Run(elements.heads, template.entries, found, attempts, stats) ==
        Lease(old(elements.heads), elements.idseq, old(template.entries), isTake, timeout, clock, old(stats))
    {
      var tv := Get(template.entries, TAG_KEY);
      if !(tv.Str? || tv.Null?) {
        return Err(ClassCast), 0;
      }
      if tv.Null? {
        stats := Blocking(stats, isTake, 1);
        found := FindLeaseForTemplate(template, isTake, clock[1]);
        return found, 1;
      }
      var tag := tv.s;
      var until := clock[0] + timeout;
      var systime := clock[1];
      var subtract := 0;
      attempts := 0;
      ghost var goal := Attempts(elements.heads, elements.idseq, tag, template.entries, isTake, timeout, clock, 0, stats);
      while true
        invariant 0 <= attempts && attempts + 2 < |clock|
        invariant Valid() && elements.idseq == old(elements.idseq)
        invariant systime == clock[attempts + 1] && subtract == clock[attempts + 1] - clock[1]
        invariant Get(template.entries, TAG_KEY) == Str(tag)
        invariant Attempts(elements.heads, elements.idseq, tag, template.entries, isTake, timeout, clock, attempts, stats) == goal
        decreases |clock| - attempts
      {
        ghost var s0, t0, st0 := elements.heads, template.entries, stats;
        ghost var r := Scan(Listed(s0, tag), t0, isTake, systime);
        ScanKeepsTag(Listed(s0, tag), t0, isTake, systime);
        var duration := timeout - subtract;
        stats := Blocking(stats, isTake, 1);
        found := FindLeaseForTemplate(template, isTake, systime);
        attempts := attempts + 1;
        if found.Err? {
          return;
        }
        if found.value.None? && duration > 0 {
          elements.WaitHolder(tag, duration);
        }
        stats := Blocking(stats, isTake, -1);
        var now := clock[attempts + 1];
        subtract := subtract + (now - systime);
        systime := now;
        if !(found.value.None? && systime < until) {
          return;
        }
      }
    }

    /**
     * The iterator loop of `findLeaseForTemplate` over the bucket of `tag`:
     * collects the expired tuples and stops at the first match, whose stamp
     * is written back to the store.
     */
    method ScanBucket(tag: string, template: FieldMap, isTake: bool, now: int)
      returns (toEvict: seq<int>, found: Result<Option<Entry>>)
      requires Valid()
      modifies elements, template
      ensures Valid() && elements.idseq == old(elements.idseq)
      ensures var r := Scan(Listed(old(elements.heads), tag), old(template.entries), isTake, now);
        && found == r.found && template.entries == r.template
        && (found.Ok? ==> toEvict == r.evicted)
        && (found.Ok? && found.value.Some? ==>
              tag in old(elements.heads) && elements.heads == Updated(old(elements.heads), tag, found.value.value))
        && (!(found.Ok? && found.value.Some?) ==> elements.heads == old(elements.heads))
    {
      ghost var s0 := elements.heads;
      ghost var t0 := template.entries;
      var es := Listed(elements.heads, tag);
      toEvict, found := ScanListing(es, template, isTake, now);
      if found.Ok? && found.value.Some? {
        ghost var r := Scan(es, t0, isTake, now);
        ScanFoundStored(s0, tag, t0, isTake, now, r);
        elements.Update(tag, found.value.value);
      }
    }

    /**
     * The loop of `findLeaseForTemplate` over one bucket listing: skips and
     * collects the expired tuples, stops at the first live one the template
     * matches (or at an exception), and returns it with its map as stamped.
     */
    static method ScanListing(es: seq<Entry>, template: FieldMap, isTake: bool, now: int)
      returns (toEvict: seq<int>, found: Result<Option<Entry>>)
      modifies template
      ensures var r := Scan(es, old(template.entries), isTake, now);
        && found == r.found && template.entries == r.template
        && (found.Ok? ==> toEvict == r.evicted)
    {
      ghost var t0 := template.entries;
      var i := 0;
      toEvict := [];
      var hit: Option<Entry> := None;
      assert es[0..] == es;
      assert Scan(es, t0, isTake, now) == Prepend([], Scan(es[0..], t0, isTake, now));
      while hit.None? && i < |es|
        invariant 0 <= i <= |es|
        invariant hit.None? ==> Scan(es, t0, isTake, now) == Prepend(toEvict, Scan(es[i..], template.entries, isTake, now))
        invariant hit.Some? ==> Scan(es, t0, isTake, now) == ScanResult(toEvict, Ok(hit), template.entries)
      {
        var e := es[i];
        if e.liveUntil < now {
          ScanExpiredStep(es, i, template.entries, isTake, now, toEvict);
          toEvict := toEvict + [e.id];
        } else {
          ScanLiveStep(es, i, template.entries, isTake, now, toEvict);
          var ok, stamped := HasSubSet(e.fields, template, isTake);
          if ok.Err? {
            return toEvict, Err(ok.error);
          }
          if ok.value {
            hit := Some(e.(fields := stamped));
          }
        }
        i := i + 1;
      }
      if hit.None? {
        ScanExhausted(es, template.entries, isTake, now, toEvict);
      }
      found := Ok(hit);
    }

    /** The eviction loop of `findLeaseForTemplate`: cancels each listed id of `tag`, in order. */
    method EvictAll(ids: seq<int>, tag: string)
      requires Valid()
      modifies elements
      ensures Valid() && elements.idseq == old(elements.idseq)
      ensures elements.heads == RemoveAll(old(elements.heads), elements.idseq, tag, ids)
    {
      var j := 0;
      while j < |ids|
        invariant 0 <= j <= |ids|
        invariant elements.Valid() && elements.idseq == old(elements.idseq)
        invariant elements.heads == RemoveAll(old(elements.heads), elements.idseq, tag, ids[..j])
      {
        RemoveAllSnoc(old(elements.heads), elements.idseq, tag, ids[..j], ids[j]);
        assert ids[..j + 1] == ids[..j] + [ids[j]];
        var _ := CancelElement(ids[j], false, tag);
        j := j + 1;
      }
      assert ids[..j] == ids;
    }

    /** `cancelElement(id, isTake, tag)`: true iff the bucket of `tag` held `id`, which is removed. */
    method CancelElement(id: int, isTake: bool, tag: string) returns (ok: bool)
      requires Valid()
      modifies elements
      ensures Valid() && elements.idseq == old(elements.idseq)
      ensures ok <==> Lookup(old(elements.heads), tag, id).Some?
      ensures elements.heads == RemoveById(old(elements.heads), elements.idseq, tag, id)
    {
      var elem := elements.RemoveHolderById(id, tag);
      ok := elem.Some?;
    }

    /** `read(tmpl, timeout)`: a null template reads nothing; otherwise the timeout loop on its map, as a read. */
    method Read(tmpl: Tuple?, timeout: int, clock: seq<int>) returns (found: Result<Option<Entry>>)
      requires Valid() && ClockOk(clock, timeout)
      modifies elements, this`stats, if tmpl != null then {tmpl.searchMap} else {}
      ensures Valid() && elements.idseq == old(elements.idseq)
      ensures tmpl == null ==> found == Ok(None) && elements.heads == old(elements.heads) && stats == old(stats)
      ensures tmpl != null ==>
        var run := Lease(old(elements.heads), elements.idseq, old(tmpl.searchMap.entries), false, timeout, clock, old(stats));
        found == run.found && elements.heads == run.store && tmpl.searchMap.entries == run.template && stats == run.stats
    {
      found := Ok(None);
      if tmpl != null {
        var attempts;
        found, attempts := FindOrWaitLeaseForTemplate(tmpl.searchMap, timeout, false, clock);
      }
    }

    /** `take(tmpl, timeout)`: as `Read`, but the tuple found is removed. */
    method Take(tmpl: Tuple?, timeout: int, clock: seq<int>) returns (found: Result<Option<Entry>>)
      requires Valid() && ClockOk(clock, timeout)
      modifies elements, this`stats, if tmpl != null then {tmpl.searchMap} else {}
      ensures Valid() && elements.idseq == old(elements.idseq)
      ensures tmpl == null ==> found == Ok(None) && elements.heads == old(elements.heads) && stats == old(stats)
      ensures tmpl != null ==>
        var run := Lease(old(elements.heads), elements.idseq, old(tmpl.searchMap.entries), true, timeout, clock, old(stats));
        found == run.found && elements.heads == run.store && tmpl.searchMap.entries == run.template && stats == run.stats
    {
      found := Ok(None);
      if tmpl != null {
        var attempts;
        found, attempts := FindOrWaitLeaseForTemplate(tmpl.searchMap, timeout, true, clock);
      }
    }

    /** `readIfExists(tmpl)`: a read with timeout 0, which makes one attempt. */
    method ReadIfExists(tmpl: Tuple?, clock: seq<int>) returns (found: Result<Option<Entry>>)
      requires Valid() && ClockOk(clock, 0)
      modifies elements, this`stats, if tmpl != null then {tmpl.searchMap} else {}
      ensures Valid() && elements.idseq == old(elements.idseq)
      ensures tmpl == null ==> found == Ok(None) && elements.heads == old(elements.heads) && stats == old(stats)
      ensures tmpl != null ==>
        var run := Lease(old(elements.heads), elements.idseq, old(tmpl.searchMap.entries), false, 0, clock, old(stats));
        found == run.found && elements.heads == run.store && tmpl.searchMap.entries == run.template && stats == run.stats
    {
      found := Read(tmpl, 0, clock);
    }

    /** `takeIfExists(tmpl)`: a take with timeout 0, which makes one attempt. */
    method TakeIfExists(tmpl: Tuple?, clock: seq<int>) returns (found: Result<Option<Entry>>)
      requires Valid() && ClockOk(clock, 0)
      modifies elements, this`stats, if tmpl != null then {tmpl.searchMap} else {}
      ensures Valid() && elements.idseq == old(elements.idseq)
      ensures tmpl == null ==> found == Ok(None) && elements.heads == old(elements.heads) && stats == old(stats)
      ensures tmpl != null ==>
        var run := Lease(old(elements.heads), elements.idseq, old(tmpl.searchMap.entries), true, 0, clock, old(stats));
        found == run.found && elements.heads == run.store && tmpl.searchMap.entries == run.template && stats == run.stats
    {
      found := Take(tmpl, 0, clock);
    }

    /**
     * `writeToElements(tag, leaseTimeMs, searchMap)` at clock reading `now`:
     * files a new tuple with `liveUntil = now + leaseTimeMs` through the
     * registry's `addHolder` (`ord`: the bucket's iteration order after a new id),
     * and counts the write when that succeeds.
     * Returns the id of the lease's tuple.
     */
    method WriteToElements(tag: Option<string>, leaseTimeMs: int, searchMap: FieldMap?, now: int, ord: seq<int>)
      returns (r: Result<int>)
      requires Valid()
      modifies elements, searchMap, this`stats
      ensures Valid() && elements.idseq == old(elements.idseq) + 1
      ensures stats == if r.Ok? then old(stats).(write := old(stats).write + 1) else old(stats)
      ensures searchMap == null ==> r == Err(NullPointer) && elements.heads == old(elements.heads)
      ensures searchMap != null && !Get(old(searchMap.entries), ID_KEY).Num? && !Get(old(searchMap.entries), ID_KEY).Null? ==>
        r == Err(ClassCast) && elements.heads == old(elements.heads) && searchMap.entries == old(searchMap.entries)
      ensures searchMap != null && (Get(old(searchMap.entries), ID_KEY).Num? || Get(old(searchMap.entries), ID_KEY).Null?) ==>
        var id := if Get(old(searchMap.entries), ID_KEY).Num? then Get(old(searchMap.entries), ID_KEY).n else elements.idseq;
        && searchMap.entries == Stamped(old(searchMap.entries), id, tag)
        && (tag == None ==> r == Err(ObjectError) && elements.heads == old(elements.heads))
        && (tag != None ==>
              && elements.heads == Inserted(old(elements.heads), tag.value, Entry(id, tag, now + leaseTimeMs, searchMap.entries), ord)
              && (r.Err? <==> Lookup(old(elements.heads), tag.value, id).Some?)
              && (r.Err? ==> r.error == InternalError)
              && (r.Ok? ==> r.value == id))
    {
      var holder := elements.AddNew(now + leaseTimeMs, tag, searchMap, ord);
      if holder.Err? {
        return Err(holder.error);
      }
      stats := stats.(write := stats.write + 1);
      r := Ok(holder.value.id);
    }

    /**
     * `renewElement(holder, duration)` at reading `now`: the holder's id
     * (which may fail its cast) and tag (null fails the registry lookup)
     * find the stored tuple, whose lease then ends at `now + duration`.
     * Returns whether it was found.
     */
    method RenewElement(holder: Tuple, duration: int, now: int) returns (r: Result<bool>)
      requires Valid()
      modifies elements
      ensures Valid() && elements.idseq == old(elements.idseq)
      ensures holder.GetId().Err? ==> r == Err(ClassCast) && elements.heads == old(elements.heads)
      ensures holder.GetId().Ok? && holder.tag == None ==> r == Err(NullPointer) && elements.heads == old(elements.heads)
      ensures holder.GetId().Ok? && holder.tag != None ==>
        var tag, id := holder.tag.value, holder.GetId().value;
        var e := Lookup(old(elements.heads), tag, id);
        && r == Ok(e.Some?)
        && elements.heads == if e.Some? then Updated(old(elements.heads), tag, e.value.(liveUntil := now + duration))
                             else old(elements.heads)
    {
      var id := holder.GetId();
      if id.Err? {
        return Err(ClassCast);
      }
      if holder.tag == None {
        return Err(NullPointer);
      }
      var tag := holder.tag.value;
      var elem := elements.FindById(id.value, tag);
      if elem.Some? {
        elements.Update(tag, elem.value.(liveUntil := now + duration));
      }
      r := Ok(elem.Some?);
    }

    /** `cancelListener(holder)`: removes the holder's listener and counts it out, if it was registered. */
    method CancelListener(holder: ListenerHolder) returns (ok: bool)
      modifies this`listeners, this`stats
      ensures ok <==> holder.id in old(listeners)
      ensures listeners == old(listeners) - {holder.id}
      ensures stats == if ok then old(stats).(listeners := old(stats).listeners - 1) else old(stats)
    {
      ok := holder.id in listeners;
      listeners := listeners - {holder.id};
      if ok {
        stats := stats.(listeners := stats.listeners - 1);
      }
    }

    /** `renewListener(holder, duration)` at reading `now`: a registered listener lives until `now + duration`. */
    method RenewListener(holder: ListenerHolder, duration: int, now: int) returns (ok: bool)
      modifies this`listeners
      ensures ok <==> holder.id in old(listeners)
      ensures listeners == if ok then old(listeners)[holder.id := old(listeners)[holder.id].(liveUntil := now + duration)]
                           else old(listeners)
    {
      ok := holder.id in listeners;
      if ok {
        listeners := listeners[holder.id := listeners[holder.id].(liveUntil := now + duration)];
      }
    }

    /** `numberOfSpaceElements()`: the number of stored tuples. */
    method NumberOfSpaceElements() returns (n: int)
      requires Valid()
      ensures n == Total(elements.heads)
    {
      n := elements.Size();
    }

    /**
     * `harvest()` at reading `now`: cancels every listener whose lease has
     * run out, then gathers the expired tuples of every bucket and cancels
     * them. Everything still live is left as it was.
     */
    method Harvest(now: int)
      requires Valid()
      modifies elements, this`listeners, this`stats
      ensures Valid() && elements.idseq == old(elements.idseq)
      ensures listeners == Unexpired(old(listeners), now)
      ensures stats == old(stats).(listeners := old(stats).listeners - (|old(listeners)| - |listeners|))
      ensures forall t, i :: Lookup(elements.heads, t, i) == Live(Lookup(old(elements.heads), t, i), now)
      ensures elements.heads == Harvested(old(elements.heads), elements.idseq, now)
    {
      HarvestListeners(now);
      var groups := elements.RetrieveGroupNames();
      var hs := elements.heads;
      var beforeEvict := GatherExpired(hs, groups, now);
      CancelExpired(beforeEvict, now);
    }

    /** The group loop of `harvest()`: the expired tuples of every listed bucket. */
    static method GatherExpired(hs: Store, groups: seq<string>, now: int) returns (beforeEvict: seq<Entry>)
      requires WellFormed(hs)
      ensures forall e :: e in beforeEvict ==> Expired(hs, e, now)
      ensures forall t, i :: t in groups && Lapsed(Lookup(hs, t, i), now) ==> Lookup(hs, t, i).value in beforeEvict
    {
      beforeEvict := [];
      var g := 0;
      while g < |groups|
        invariant 0 <= g <= |groups|
        invariant forall e :: e in beforeEvict ==> Expired(hs, e, now)
        invariant forall t, i :: t in groups[..g] && Lapsed(Lookup(hs, t, i), now) ==> Lookup(hs, t, i).value in beforeEvict
      {
        var found := ExpiredOf(Listed(hs, groups[g]), now);
        ExpiredListed(hs, groups[g], found, now);
        beforeEvict := beforeEvict + found;
        assert groups[..g + 1] == groups[..g] + [groups[g]];
        g := g + 1;
      }
      assert groups[..g] == groups;
    }

    /**
     * The eviction loop of `harvest()`: cancels every gathered tuple, which
     * takes out every expired tuple of the listed buckets and nothing else.
     */
    method CancelExpired(beforeEvict: seq<Entry>, now: int)
      requires Valid()
      requires forall e :: e in beforeEvict ==> Expired(elements.heads, e, now)
      requires forall t, i :: Lapsed(Lookup(elements.heads, t, i), now) ==> Lookup(elements.heads, t, i).value in beforeEvict
      modifies elements
      ensures Valid() && elements.idseq == old(elements.idseq)
      ensures forall t, i :: Lookup(elements.heads, t, i) == Live(Lookup(old(elements.heads), t, i), now)
      ensures (forall k :: 0 <= k < |beforeEvict| ==> beforeEvict[k].tag.Some?) &&
        elements.heads == Cancelled(old(elements.heads), elements.idseq, beforeEvict)
      ensures elements.heads == Harvested(old(elements.heads), elements.idseq, now)
    {
      var hs := elements.heads;
      forall k | 0 <= k < |beforeEvict| ensures beforeEvict[k].tag.Some? {
        assert beforeEvict[k] in beforeEvict;
      }
      var j := 0;
      while j < |beforeEvict|
        invariant 0 <= j <= |beforeEvict|
        invariant Valid() && elements.idseq == old(elements.idseq)
        invariant forall k :: 0 <= k < |beforeEvict| ==> beforeEvict[k].tag.Some?
        invariant elements.heads == Cancelled(hs, elements.idseq, beforeEvict[..j])
      {
        var e := beforeEvict[j];
        assert e in beforeEvict;
        assert beforeEvict[..j + 1][..j] == beforeEvict[..j];
        var _ := CancelElement(e.id, false, e.tag.value);
        j := j + 1;
      }
      assert beforeEvict[..j] == beforeEvict;
      CancelledEffect(hs, elements.idseq, beforeEvict);
      CancelledHarvested(hs, elements.idseq, beforeEvict, now);
      forall t, i ensures Lookup(elements.heads, t, i) == Live(Lookup(hs, t, i), now) {
        if Lapsed(Lookup(hs, t, i), now) {
          var e := Lookup(hs, t, i).value;
          assert TaggedBucket(hs[t], t);
          assert e in beforeEvict && e.tag == Some(t) && e.id == i;
        }
      }
    }

    /** The listener loop of `harvest()`. */
    method HarvestListeners(now: int)
      requires forall id :: id in listeners ==> listeners[id].id == id
      modifies this`listeners, this`stats
      ensures forall id :: id in listeners ==> listeners[id].id == id
      ensures listeners == Unexpired(old(listeners), now)
      ensures stats == old(stats).(listeners := old(stats).listeners - (|old(listeners)| - |listeners|))
    {
      var rest := set id | id in listeners :: listeners[id];
      while rest != {}
        invariant forall l :: l in rest ==> l.id in old(listeners) && old(listeners)[l.id] == l
        invariant forall id :: id in listeners <==>
          id in old(listeners) && (old(listeners)[id] in rest || old(listeners)[id].liveUntil >= now)
        invariant forall id :: id in listeners ==> listeners[id] == old(listeners)[id]
        invariant stats == old(stats).(listeners := old(stats).listeners - (|old(listeners)| - |listeners|))
        decreases rest
      {
        var listener :| listener in rest;
        if listener.liveUntil < now {
          var _ := CancelListener(listener);
        }
        rest := rest - {listener};
      }
    }

    /** The bucket loop of `harvest()`: the expired tuples of a bucket listing, in listing order. */
    static method ExpiredOf(es: seq<Entry>, now: int) returns (found: seq<Entry>)
      ensures forall e :: e in found ==> e in es && e.liveUntil < now
      ensures forall k :: 0 <= k < |es| && es[k].liveUntil < now ==> es[k] in found
    {
      found := [];
      var i := 0;
      while i < |es|
        invariant 0 <= i <= |es|
        invariant forall e :: e in found ==> e in es && e.liveUntil < now
        invariant forall k :: 0 <= k < i && es[k].liveUntil < now ==> es[k] in found
      {
        if es[i].liveUntil < now {
          found := found + [es[i]];
        }
        i := i + 1;
      }
    }
  }

  /** The expired tuples of a bucket listing are those of the bucket. */
  lemma ExpiredListed(hs: Store, tag: string, found: seq<Entry>, now: int)
    requires WellFormed(hs)
    requires forall e :: e in found ==> e in Listed(hs, tag) && e.liveUntil < now
    requires forall k :: 0 <= k < |Listed(hs, tag)| && Listed(hs, tag)[k].liveUntil < now ==> Listed(hs, tag)[k] in found
    ensures forall e :: e in found ==> Expired(hs, e, now)
    ensures forall i :: Lapsed(Lookup(hs, tag, i), now) ==> Lookup(hs, tag, i).value in found
  {
    var es := Listed(hs, tag);
    forall e | e in found ensures Expired(hs, e, now) {
      StoredTagged(hs, e);
    }
    forall i | Lapsed(Lookup(hs, tag, i), now) ensures Lookup(hs, tag, i).value in found {
      var e := Lookup(hs, tag, i).value;
      assert e in es;
    }
  }

  /** A registered listener: its id and the end of its lease. */
  datatype ListenerHolder = ListenerHolder(id: int, liveUntil: int)

  /** The listeners whose lease has not run out at `now`. */
  function Unexpired(ls: map<int, ListenerHolder>, now: int): map<int, ListenerHolder>
  {
    map id | id in ls && ls[id].liveUntil >= now :: ls[id]
  }

  /** `e` is stored under its own id and tag, and its lease has run out. */
  ghost predicate Expired(s: Store, e: Entry, now: int)
  {
    e.tag.Some? && Lookup(s, e.tag.value, e.id) == Some(e) && e.liveUntil < now
  }

  /** A lookup that found a tuple whose lease has run out at `now`. */
  predicate Lapsed(o: Option<Entry>, now: int)
  {
    o.Some? && o.value.liveUntil < now
  }

  /** What `harvest` leaves of a lookup: nothing if the tuple's lease has run out. */
  function Live(o: Option<Entry>, now: int): Option<Entry>
  {
    if Lapsed(o, now) then None else o
  }

  /** Some tuple of `es` is filed under tag `t` and id `i`. */
  ghost predicate Hit(es: seq<Entry>, t: string, i: int)
  {
    exists e :: e in es && e.tag == Some(t) && e.id == i
  }

  /** The registry after cancelling each tuple of `es` under its own tag and id, in order. */
  function Cancelled(s: Store, idseq: int, es: seq<Entry>): Store
    requires forall k :: 0 <= k < |es| ==> es[k].tag.Some?
    decreases |es|
  {
    if es == [] then s
    else
      var last := es[|es| - 1];
      RemoveById(Cancelled(s, idseq, es[..|es| - 1]), idseq, last.tag.value, last.id)
  }

  /** Cancelling a list of tuples removes exactly the ones it names and keeps the registry well formed. */
  lemma {:induction false} CancelledEffect(s: Store, idseq: int, es: seq<Entry>)
    requires WellFormed(s) && forall k :: 0 <= k < |es| ==> es[k].tag.Some?
    ensures WellFormed(Cancelled(s, idseq, es))
    ensures forall t, i :: Lookup(Cancelled(s, idseq, es), t, i) == if Hit(es, t, i) then None else Lookup(s, t, i)
    decreases |es|
  {
    if es != [] {
      var init := es[..|es| - 1];
      var last := es[|es| - 1];
      assert forall e :: e in es <==> e in init || e == last by {
        assert es == init + [last];
      }
      CancelledEffect(s, idseq, init);
      var s1 := Cancelled(s, idseq, init);
      RemoveByIdEffect(s1, idseq, last.tag.value, last.id);
      RemoveByIdWellFormed(s1, idseq, last.tag.value, last.id);
      forall t, i ensures Hit(es, t, i) <==> Hit(init, t, i) || (t == last.tag.value && i == last.id) {
        if Hit(es, t, i) {
          var e :| e in es && e.tag == Some(t) && e.id == i;
          if e != last {
            assert e in init;
          }
        }
        if Hit(init, t, i) {
          var e :| e in init && e.tag == Some(t) && e.id == i;
          assert e in es;
        }
      }
    }
  }

  /**
   * The registry once removals have turned its buckets into `f`: the
   * removals prune the empty buckets nobody waits on when the sequence is at
   * a multiple of the pruning period and one of them emptied a bucket.
   */
  ghost function Settled(s: Store, idseq: int, f: Store): Store
  {
    if idseq % PRUNE_PERIOD == 0 && Emptied(s, f) then Prune(f) else f
  }

  /** The ids that `es` names under tag `t`. */
  ghost function GoneIn(es: seq<Entry>, t: string): set<int>
  {
    set e | e in es && e.tag == Some(t) :: e.id
  }

  /** Each bucket of `s` with the tuples of `es` cut out. */
  ghost function CutMap(s: Store, es: seq<Entry>): Store
  {
    map t | t in s :: Cut(s[t], GoneIn(es, t))
  }

  /** Each bucket of `s` with the tuples of `es` cut out, then settled. */
  ghost function CutAll(s: Store, idseq: int, es: seq<Entry>): Store
  {
    Settled(s, idseq, CutMap(s, es))
  }

  /** The ids of a bucket's tuples whose lease has run out at `now`. */
  ghost function LapsedIds(b: Bucket, now: int): set<int>
  {
    set i | i in b.elements && b.elements[i].liveUntil < now
  }

  /**
   * What `harvest` at `now` leaves of the registry: every bucket without its
   * lapsed tuples, the others in their iteration order, then settled.
   */
  ghost function Harvested(s: Store, idseq: int, now: int): Store
  {
    Settled(s, idseq, map t | t in s :: Cut(s[t], LapsedIds(s[t], now)))
  }

  /**
   * Cancelling stored tuples one after the other, in any order, gives the
   * registry with those tuples cut out of their buckets, then settled.
   */
  lemma {:induction false} CancelledCut(s: Store, idseq: int, es: seq<Entry>)
    requires forall k :: 0 <= k < |es| ==> es[k].tag.Some? && Lookup(s, es[k].tag.value, es[k].id) == Some(es[k])
    ensures Cancelled(s, idseq, es) == CutAll(s, idseq, es)
    decreases |es|
  {
    if es == [] {
      CutNothing(s, idseq);
    } else {
      var init, x := es[..|es| - 1], es[|es| - 1];
      assert es == init + [x];
      assert forall k :: 0 <= k < |init| ==> init[k] == es[k];
      CancelledCut(s, idseq, init);
      assert Cancelled(s, idseq, es) == RemoveById(CutAll(s, idseq, init), idseq, x.tag.value, x.id);
      CutMapStep(s, init, x);
      SettledStep(s, idseq, CutMap(s, init), x.tag.value, x.id);
    }
  }

  /** Cutting nothing leaves the registry as it is. */
  lemma CutNothing(s: Store, idseq: int)
    ensures CutAll(s, idseq, []) == s
  {
    forall t | t in s ensures Cut(s[t], GoneIn([], t)) == s[t] {
      assert GoneIn([], t) == {};
      assert s[t].elements - {} == s[t].elements;
      KeepAll(s[t].order);
    }
    assert CutMap(s, []) == s;
  }

  /** Cutting one more stored tuple removes it from its bucket. */
  lemma CutMapStep(s: Store, init: seq<Entry>, x: Entry)
    requires x.tag.Some? && Lookup(s, x.tag.value, x.id) == Some(x)
    ensures var f := CutMap(s, init);
      && f.Keys == s.Keys && x.tag.value in s && x.id in s[x.tag.value].elements
      && CutMap(s, init + [x]) == f[x.tag.value := Removed(f[x.tag.value], x.id)]
  {
    var t := x.tag.value;
    var es := init + [x];
    assert forall e :: e in es <==> e in init || e == x;
    forall u | u in s ensures Cut(s[u], GoneIn(es, u)) == CutMap(s, init)[t := Removed(CutMap(s, init)[t], x.id)][u] {
      if u == t {
        assert GoneIn(es, u) == GoneIn(init, u) + {x.id};
        CutRemoved(s[t], GoneIn(init, t), x.id);
      } else {
        assert GoneIn(es, u) == GoneIn(init, u);
      }
    }
  }

  /** Some bucket of `s` that held tuples is empty in `f`. */
  ghost predicate Emptied(s: Store, f: Store)
  {
    exists t :: t in s && t in f && |s[t].elements| > 0 && |f[t].elements| == 0
  }

  /** One more removal, of an id stored in `s`, carries a settled registry to the next. */
  lemma SettledStep(s: Store, idseq: int, f: Store, t: string, i: int)
    requires f.Keys == s.Keys && t in s && i in s[t].elements
    ensures RemoveById(Settled(s, idseq, f), idseq, t, i) == Settled(s, idseq, f[t := Removed(f[t], i)])
  {
    if idseq % PRUNE_PERIOD == 0 && Emptied(s, f) {
      assert Settled(s, idseq, f) == Prune(f);
      PrunedStep(s, idseq, f, t, i);
    } else if idseq % PRUNE_PERIOD == 0 {
      assert Settled(s, idseq, f) == f;
      QuietStep(s, idseq, f, t, i);
    } else {
      assert Settled(s, idseq, f) == f;
    }
  }

  /** A removal after the registry was pruned: the pruning stays in force. */
  lemma PrunedStep(s: Store, idseq: int, f: Store, t: string, i: int)
    requires f.Keys == s.Keys && t in s && i in s[t].elements
    requires idseq % PRUNE_PERIOD == 0 && Emptied(s, f)
    ensures RemoveById(Prune(f), idseq, t, i) == Settled(s, idseq, f[t := Removed(f[t], i)])
  {
    var b' := Removed(f[t], i);
    var f' := f[t := b'];
    var u :| u in s && u in f && |s[u].elements| > 0 && |f[u].elements| == 0;
    assert u in f' && |f'[u].elements| == 0 by {
      if u == t {
        assert b'.elements == f[t].elements - {i};
      }
    }
    assert Settled(s, idseq, f') == Prune(f');
    if t !in Prune(f) {
      assert b'.elements == f[t].elements - {i};
      PruneDropped(f, t, b');
    } else if |b'.elements| < 1 {
      PruneUpdate(f, t, b');
    } else {
      PruneKept(f, t, b');
    }
  }

  /** A removal while nothing was pruned: it prunes exactly when it empties its bucket. */
  lemma QuietStep(s: Store, idseq: int, f: Store, t: string, i: int)
    requires f.Keys == s.Keys && t in s && i in s[t].elements
    requires idseq % PRUNE_PERIOD == 0 && !Emptied(s, f)
    ensures RemoveById(f, idseq, t, i) == Settled(s, idseq, f[t := Removed(f[t], i)])
  {
    var f' := f[t := Removed(f[t], i)];
    if |Removed(f[t], i).elements| < 1 {
      assert t in f' && |f'[t].elements| == 0;
      assert Settled(s, idseq, f') == Prune(f');
    } else {
      assert !Emptied(s, f');
    }
  }

  /** Pruning after replacing a bucket of a pruned registry is pruning after replacing it first. */
  lemma PruneUpdate(f: Store, t: string, b: Bucket)
    ensures Prune(Prune(f)[t := b]) == Prune(f[t := b])
  {
    assert Prune(Prune(f)[t := b]).Keys == Prune(f[t := b]).Keys;
  }

  /** A bucket that pruning keeps can be put in before or after pruning. */
  lemma PruneKept(f: Store, t: string, b: Bucket)
    requires b.waiting || |b.elements| >= 1
    ensures Prune(f)[t := b] == Prune(f[t := b])
  {
    assert (Prune(f)[t := b]).Keys == Prune(f[t := b]).Keys;
  }

  /** Replacing a bucket that pruning drops by another it drops changes nothing once pruned. */
  lemma PruneDropped(f: Store, t: string, b: Bucket)
    requires t in f && !f[t].waiting && |f[t].elements| < 1
    requires !b.waiting && |b.elements| < 1
    ensures Prune(f[t := b]) == Prune(f)
  {
    assert Prune(f[t := b]).Keys == Prune(f).Keys;
  }

  /**
   * Cancelling exactly the lapsed tuples of a registry, in any order, leaves
   * what `Harvested` says.
   */
  lemma CancelledHarvested(s: Store, idseq: int, es: seq<Entry>, now: int)
    requires WellFormed(s)
    requires forall e :: e in es ==> Expired(s, e, now)
    requires forall t, i :: Lapsed(Lookup(s, t, i), now) ==> Lookup(s, t, i).value in es
    ensures forall k :: 0 <= k < |es| ==> es[k].tag.Some?
    ensures Cancelled(s, idseq, es) == Harvested(s, idseq, now)
  {
    assert forall k :: 0 <= k < |es| ==> es[k] in es;
    CancelledCut(s, idseq, es);
    GoneIsLapsed(s, es, now);
    CutAllHarvested(s, idseq, es, now);
  }

  /** Cutting out, bucket by bucket, exactly the lapsed ids is the harvest. */
  lemma CutAllHarvested(s: Store, idseq: int, es: seq<Entry>, now: int)
    requires forall t :: t in s ==> GoneIn(es, t) == LapsedIds(s[t], now)
    ensures CutAll(s, idseq, es) == Harvested(s, idseq, now)
  {
    assert CutMap(s, es) == map t | t in s :: Cut(s[t], LapsedIds(s[t], now));
  }

  /** The tuples `es` names under each tag are exactly that bucket's lapsed ones. */
  lemma GoneIsLapsed(s: Store, es: seq<Entry>, now: int)
    requires WellFormed(s)
    requires forall e :: e in es ==> Expired(s, e, now)
    requires forall t, i :: Lapsed(Lookup(s, t, i), now) ==> Lookup(s, t, i).value in es
    ensures forall t :: t in s ==> GoneIn(es, t) == LapsedIds(s[t], now)
  {
    forall t | t in s ensures GoneIn(es, t) == LapsedIds(s[t], now) {
      assert TaggedBucket(s[t], t);
      forall i | i in LapsedIds(s[t], now) ensures i in GoneIn(es, t) {
        assert Lapsed(Lookup(s, t, i), now);
      }
    }
  }

  /** A stored tuple carries the tag of its bucket. */
  lemma StoredTagged(s: Store, e: Entry)
    requires WellFormed(s) && exists t :: Lookup(s, t, e.id) == Some(e)
    ensures e.tag.Some? && Lookup(s, e.tag.value, e.id) == Some(e)
  {
    var t :| Lookup(s, t, e.id) == Some(e);
    assert TaggedBucket(s[t], t);
  }
}
