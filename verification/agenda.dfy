/**
 * The dynamic agenda (DynamicAgenda.java): named channels, each a tuple
 * space, and the two operations that change priorities in place,
 * `addValue` (one tuple) and `decayAll` (every tuple of every channel).
 *
 * Both move a tuple the same way: it is removed from its set, its priority
 * is changed with Java `int` arithmetic, and it is inserted again, which
 * drops it if another tuple already holds the new priority.
 */
module Agenda {
  import opened Values
  import opened AgendaLogic
  import opened AgendaTuple
  import opened AgendaSpace

  /** How long `addValue` lets `read` wait, in milliseconds. */
  const ADD_VALUE_WAIT: int := 10000

  /** `t.setPriority(t.getPriority() + howMuch)` with 32-bit wrap-around. */
  function Bumped(t: TupleData, howMuch: int): (r: TupleData)
    ensures r == t.(priority := r.priority) && IsInt32(r.priority)
    ensures IsInt32(t.priority + howMuch) ==> r.priority == t.priority + howMuch
  {
    t.(priority := Wrap32(t.priority + howMuch))
  }

  /** `internalRemove(t)`, then `insert` of `t` with its new priority. */
  function Moved(ts: seq<TupleData>, t: TupleData, howMuch: int): seq<TupleData>
  {
    Added(RemovedPriority(ts, t.priority), Bumped(t, howMuch))
  }

  /**
   * Moving the tuple stored at `k`: it leaves the set, and its bumped version
   * arrives unless another tuple holds the new priority, in which case it is
   * lost; the set stays sorted.
   */
  lemma MovedEffect(ts: seq<TupleData>, k: nat, t: TupleData, howMuch: int)
    requires Descending(ts) && k < |ts| && ts[k].priority == t.priority
    ensures Descending(Moved(ts, t, howMuch))
    ensures HasPriority(ts[..k] + ts[k + 1..], Bumped(t, howMuch).priority) ==>
      Moved(ts, t, howMuch) == ts[..k] + ts[k + 1..]
    ensures !HasPriority(ts[..k] + ts[k + 1..], Bumped(t, howMuch).priority) ==>
      multiset(Moved(ts, t, howMuch)) == multiset(ts[..k] + ts[k + 1..]) + multiset{Bumped(t, howMuch)}
  {
    RemovedEffect(ts, k, t.priority);
    AddedEffect(ts[..k] + ts[k + 1..], Bumped(t, howMuch));
  }

  // ----- addValue -----

  /** What `addValue` ends with, and the channel's set afterwards. */
  datatype Bump = Bump(outcome: Outcome, after: seq<TupleData>)

  /**
   * `addValue(channel, template, howMuch)` on a channel holding `ts`: `read`
   * with a wait during which the set becomes `others`; the copy it returns is
   * moved by `howMuch`. When nothing matches, building the exception's
   * message prints the template, which can itself fail.
   */
  function AddValueEffect(ts: seq<TupleData>, c: Option<Logic>, tf: Fields, rid: string, howMuch: int,
                          others: seq<TupleData>): (b: Bump)
    ensures b.outcome.Fail? ==> b.outcome.error in {ClassCast, NullPointer, MissingMatch}
  {
    var a := ReadAttempt(ts, c, tf, rid, others);
    match a.result
    case Err(x) => Bump(Fail(x), a.after)
    case Ok(None) => Bump(if PrintableFields(tf) then Fail(MissingMatch) else Fail(ClassCast), a.after)
    case Ok(Some(t)) => Bump(Pass, Moved(a.after, t, howMuch))
  }

  /**
   * `after` is `s` once its first match, at some `k`, has been moved by
   * `howMuch`: gone, and back with the new priority unless that is taken.
   */
  ghost predicate MovesFirstMatch(s: seq<TupleData>, c: Option<Logic>, tf: Fields, rid: string, howMuch: int,
                                  after: seq<TupleData>)
  {
    exists k :: 0 <= k < |s| && Inspect(c, tf, s[k]) == Ok(true) && NoneMatch(s, c, tf, 0, k) &&
      var moved := Bumped(CopyOf(Stamp(s[k], rid)), howMuch);
      var rest := s[..k] + s[k + 1..];
      if HasPriority(rest, moved.priority) then after == rest
      else multiset(after) == multiset(rest) + multiset{moved}
  }

  /**
   * `addValue` moves the first match of the set it reads, found in `ts` or,
   * when `ts` has none, in `others`; it fails with the missing-match
   * exception exactly when neither has one (and the template prints); any
   * failure leaves a set it read unchanged; the set stays sorted.
   */
  lemma AddValueMeaning(ts: seq<TupleData>, c: Option<Logic>, tf: Fields, rid: string, howMuch: int,
                        others: seq<TupleData>)
    requires Descending(ts) && Descending(others)
    ensures Descending(AddValueEffect(ts, c, tf, rid, howMuch, others).after)
    ensures AddValueEffect(ts, c, tf, rid, howMuch, others).outcome == Pass ==>
      MovesFirstMatch(ts, c, tf, rid, howMuch, AddValueEffect(ts, c, tf, rid, howMuch, others).after) ||
      (NoneMatch(ts, c, tf, 0, |ts|) &&
       MovesFirstMatch(others, c, tf, rid, howMuch, AddValueEffect(ts, c, tf, rid, howMuch, others).after))
    ensures AddValueEffect(ts, c, tf, rid, howMuch, others).outcome == Fail(MissingMatch) <==>
      PrintableFields(tf) && NoneMatch(ts, c, tf, 0, |ts|) && NoneMatch(others, c, tf, 0, |others|)
    ensures AddValueEffect(ts, c, tf, rid, howMuch, others).outcome.Fail? ==>
      AddValueEffect(ts, c, tf, rid, howMuch, others).after in {ts, others}
  {
    var first := MatchAttempt(ts, c, tf, rid, false);
    var s := if first.result == Ok(None) then others else ts;
    var a := MatchAttempt(s, c, tf, rid, false);
    assert ReadAttempt(ts, c, tf, rid, others) == a;
    if a.result.Ok? && a.result.value.Some? {
      FoundMoved(s, c, tf, rid, howMuch);
    }
  }

  /** Moving what a non-destructive attempt on `s` found moves the first match of `s`. */
  lemma FoundMoved(s: seq<TupleData>, c: Option<Logic>, tf: Fields, rid: string, howMuch: int)
    requires Descending(s)
    requires MatchAttempt(s, c, tf, rid, false).result.Ok? && MatchAttempt(s, c, tf, rid, false).result.value.Some?
    ensures var a := MatchAttempt(s, c, tf, rid, false);
      var after := Moved(a.after, a.result.value.value, howMuch);
      Descending(after) && MovesFirstMatch(s, c, tf, rid, howMuch, after)
  {
    var a := MatchAttempt(s, c, tf, rid, false);
    var t := a.result.value.value;
    var k :| 0 <= k < |s| && Inspect(c, tf, s[k]) == Ok(true) && NoneMatch(s, c, tf, 0, k)
      && t == CopyOf(Stamp(s[k], rid)) && a.after == s[k := Stamp(s[k], rid)];
    assert a.after[..k] + a.after[k + 1..] == s[..k] + s[k + 1..];
    MovedEffect(a.after, k, t, howMuch);
    assert MovesFirstMatch(s, c, tf, rid, howMuch, Moved(a.after, t, howMuch));
  }

  // ----- decayAll -----

  /** What `decayAll` does to one channel, and how it ends. */
  datatype ChannelDecay = ChannelDecay(outcome: Outcome, after: seq<TupleData>)

  /**
   * One channel under `decayAll` as written. The loop walks the tree set
   * with its own fail-fast iterator while removing and inserting through
   * the set: the first tuple is moved, and the iterator's next step, if the
   * set had a second tuple, throws.
   */
  function DecayFirst(ts: seq<TupleData>, howMuch: int): (d: ChannelDecay)
    ensures d.outcome.Fail? <==> |ts| >= 2
    ensures d.outcome.Fail? ==> d.outcome.error == ConcurrentModification
  {
    if ts == [] then ChannelDecay(Pass, ts)
    else ChannelDecay(if |ts| >= 2 then Fail(ConcurrentModification) else Pass, Moved(ts, ts[0], howMuch))
  }

  /** A channel that held `before` holds `after` once `decayAll` as written is done with it, ending as `o`. */
  ghost predicate DecayedAsWritten(before: seq<TupleData>, howMuch: int, o: Outcome, after: seq<TupleData>)
  {
    DecayFirst(before, howMuch) == ChannelDecay(o, after)
  }

  /** Insertion never drops a stored tuple. */
  lemma AddedKeepsAll(ts: seq<TupleData>, d: TupleData)
    ensures forall i :: 0 <= i < |ts| ==> ts[i] in Added(ts, d)
  {
    var k := PlaceOf(ts, d.priority);
    if !(k < |ts| && ts[k].priority == d.priority) {
      var r := ts[..k] + [d] + ts[k..];
      forall i | 0 <= i < |ts| ensures ts[i] in r {
        if i < k { assert r[i] == ts[i]; } else { assert r[i + 1] == ts[i]; }
      }
    }
  }

  /**
   * As written, a channel with two or more tuples fails after its first
   * tuple, and every other tuple is still there with its old priority.
   */
  lemma DecayFirstSkipsTheRest(ts: seq<TupleData>, howMuch: int)
    requires Descending(ts) && |ts| >= 2
    ensures DecayFirst(ts, howMuch).outcome == Fail(ConcurrentModification)
    ensures forall i :: 1 <= i < |ts| ==> ts[i] in DecayFirst(ts, howMuch).after
  {
    RemovedEffect(ts, 0, ts[0].priority);
    assert ts[..0] + ts[1..] == ts[1..];
    AddedKeepsAll(ts[1..], Bumped(ts[0], howMuch));
    forall i | 1 <= i < |ts| ensures ts[i] in DecayFirst(ts, howMuch).after {
      assert ts[i] == ts[1..][i - 1];
    }
  }

  /**
   * A concrete channel at priorities 30 and 20, decayed by 1: the call fails,
   * the first tuple is at 29 and the second was never decayed.
   */
  lemma DecayAllAsWrittenExample()
    ensures var t30 := Fresh("c", map[]).(priority := 30);
      var t20 := Fresh("c", map[]).(priority := 20);
      DecayFirst([t30, t20], -1) == ChannelDecay(Fail(ConcurrentModification), [t30.(priority := 29), t20])
  {
    var t30 := Fresh("c", map[]).(priority := 30);
    var t20 := Fresh("c", map[]).(priority := 20);
    assert RemovedPriority([t30, t20], 30) == [t20];
    assert PlaceOf([t20], 29) == 0;
  }

  /**
   * `decayAll` as intended, on one channel: every tuple is taken out of the
   * set and each one, in the set's order, is inserted again with its new
   * priority.
   */
  function Decayed(ts: seq<TupleData>, howMuch: int): seq<TupleData>
  {
    if ts == [] then [] else Added(Decayed(ts[..|ts| - 1], howMuch), Bumped(ts[|ts| - 1], howMuch))
  }

  /** A tuple below every stored priority goes at the end. */
  lemma AddedAtEnd(r: seq<TupleData>, x: TupleData)
    requires forall i :: 0 <= i < |r| ==> r[i].priority > x.priority
    ensures Added(r, x) == r + [x]
  {
    assert PlaceOf(r, x.priority) == |r|;
    assert r[..|r|] == r;
  }

  /**
   * Wherever no new priority leaves the `int` range, the intended decay
   * keeps every tuple, in the same order, each moved by `howMuch`.
   */
  lemma {:induction false} DecayedShiftsAll(ts: seq<TupleData>, howMuch: int)
    requires Descending(ts)
    requires forall i :: 0 <= i < |ts| ==> IsInt32(ts[i].priority + howMuch)
    ensures |Decayed(ts, howMuch)| == |ts|
    ensures forall i :: 0 <= i < |ts| ==> Decayed(ts, howMuch)[i] == Bumped(ts[i], howMuch)
    decreases |ts|
  {
    if ts != [] {
      var n := |ts| - 1;
      var prefix := ts[..n];
      DecayedShiftsAll(prefix, howMuch);
      var r := Decayed(prefix, howMuch);
      var x := Bumped(ts[n], howMuch);
      forall i | 0 <= i < |r| ensures r[i].priority > x.priority {
        assert r[i] == Bumped(ts[i], howMuch);
      }
      AddedAtEnd(r, x);
    }
  }

  // ----- the agenda object -----

  /** The agenda (DynamicAgenda.java); its concurrent map of channels is `channels`. */
  class DynamicAgenda {
    var channels: map<string, TupleSpace>

    /** The channel objects. */
    ghost function Spaces(): set<TupleSpace>
      reads this
    {
      set n | n in channels :: channels[n]
    }

    /**
     * Each channel is a sorted set named after its key, so no two keys share
     * one.
     */
    ghost predicate Valid()
      reads this, Spaces()
    {
      forall n :: n in channels ==> channels[n].Valid() && channels[n].spaceName == n
    }

    /** Every channel's stored tuples. */
    ghost function Contents(): map<string, seq<TupleData>>
      reads this, Spaces()
    {
      map n | n in channels :: channels[n].tuples
    }

    /** `DynamicAgenda()`: no channels. */
    constructor ()
      ensures Valid() && Contents() == map[]
    {
      channels := map[];
    }

    /** `createChannel(name)`: a new, empty space under `name`, replacing any there was. */
    method CreateChannel(name: string)
      requires Valid()
      modifies this
      ensures Valid() && name in channels && fresh(channels[name])
      ensures Contents() == old(Contents())[name := []]
    {
      var space := new TupleSpace(name);
      channels := channels[name := space];
    }

    /** `getChannel(name)`: the space created under `name`; null for an unknown name. */
    function GetChannel(name: string): (r: Option<TupleSpace>)
      requires Valid()
      reads this, Spaces()
      ensures r.Some? <==> name in Contents()
      ensures r.Some? ==> r.value.spaceName == name && r.value.tuples == Contents()[name]
    {
      if name in channels then Some(channels[name]) else None
    }

    /** `newTuple(channelName)`: a tuple tagged with the channel's name. */
    method NewTuple(channelName: string) returns (t: TupleImpl)
      ensures fresh(t) && fresh(t.tupleFields) && t.Valid()
      ensures t.Data() == Fresh(channelName, map[])
    {
      t := new TupleImpl(channelName);
    }

    /** `newTuple(channelName, properties)`: the same over the caller's map. */
    method NewTupleWith(channelName: string, properties: FieldMap) returns (t: TupleImpl)
      ensures fresh(t) && t.tupleFields == properties && t.Valid()
      ensures t.Data() == Fresh(channelName, properties.entries)
    {
      t := new TupleImpl.WithFields(channelName, properties);
    }

    /** `newTemplate()`: an empty template without a constraint. */
    method NewTemplate() returns (t: TemplateImpl)
      ensures fresh(t) && fresh(t.tupleFields) && t.tupleFields.entries == map[]
      ensures t.tag == TEMPLATE_TAG && t.constraint == None
    {
      t := new TemplateImpl();
    }

    /** `put(channelName, tuple)`: inserts into the channel; an unknown channel is dereferenced as null. */
    method Put(name: string, tuple: TupleImpl) returns (o: Outcome)
      requires Valid()
      modifies Spaces()
      ensures Valid() && channels == old(channels)
      ensures forall n :: n in channels && n != name ==> channels[n].tuples == old(channels[n].tuples)
      ensures name !in channels ==> o == Fail(NullPointer)
      ensures name in channels && !PrintableFields(tuple.Data().fields) ==>
        o == Fail(ClassCast) && channels[name].tuples == old(channels[name].tuples)
      ensures name in channels && PrintableFields(tuple.Data().fields) ==>
        o == Pass && channels[name].tuples == Added(old(channels[name].tuples), tuple.Data())
    {
      if name !in channels {
        return Fail(NullPointer);
      }
      o := channels[name].Insert(tuple.Data());
    }

    /** `read(channelName, template, waitTime)` on the channel, with `others` as in `TupleSpace.Read`. */
    method Read(name: string, template: TemplateImpl, waitTime: int, others: seq<TupleData>)
      returns (r: Result<Option<TupleData>>)
      requires Valid() && waitTime > 0 && Descending(others) && AllPrintable(others)
      modifies Spaces()
      ensures Valid() && channels == old(channels)
      ensures forall n :: n in channels && n != name ==> channels[n].tuples == old(channels[n].tuples)
      ensures name !in channels ==> r == Err(NullPointer)
      ensures name in channels ==>
        Attempt(r, channels[name].tuples) == ReadAttempt(old(channels[name].tuples), template.constraint,
          template.tupleFields.entries, template.requestId, others)
    {
      if name !in channels {
        return Err(NullPointer);
      }
      r := channels[name].Read(template, waitTime, others);
    }

    /** `take(channelName, template, waitTime)` on the channel. */
    method Take(name: string, template: TemplateImpl, waitTime: int) returns (r: Result<Option<TupleData>>)
      requires Valid()
      modifies Spaces()
      ensures Valid() && channels == old(channels)
      ensures forall n :: n in channels && n != name ==> channels[n].tuples == old(channels[n].tuples)
      ensures name !in channels ==> r == Err(NullPointer)
      ensures name in channels ==>
        Attempt(r, channels[name].tuples) == MatchAttempt(old(channels[name].tuples), template.constraint,
          template.tupleFields.entries, template.requestId, true)
    {
      if name !in channels {
        return Err(NullPointer);
      }
      r := channels[name].Take(template, waitTime);
    }

    /** `listTuples(channelName)`: the channel's tuples, highest priority first. */
    function ListTuples(name: string): (r: Result<seq<TupleData>>)
      requires Valid()
      reads this, Spaces()
      ensures r.Ok? <==> name in Contents()
      ensures r.Err? ==> r.error == NullPointer
      ensures r.Ok? ==> r.value == Contents()[name] && Descending(r.value)
    {
      if name in channels then Ok(channels[name].Tuples()) else Err(NullPointer)
    }

    /**
     * `addValue(channelName, template, howMuch)`: reads the first match with
     * a wait of 10000 ms, then moves that tuple by `howMuch`.
     */
    method AddValue(name: string, template: TemplateImpl, howMuch: int, others: seq<TupleData>)
      returns (o: Outcome)
      requires Valid() && Descending(others) && AllPrintable(others)
      modifies Spaces()
      ensures Valid() && channels == old(channels)
      ensures forall n :: n in channels && n != name ==> channels[n].tuples == old(channels[n].tuples)
      ensures name !in channels ==> o == Fail(NullPointer)
      ensures name in channels ==>
        Bump(o, channels[name].tuples) == AddValueEffect(old(channels[name].tuples), template.constraint,
          template.tupleFields.entries, template.requestId, howMuch, others)
    {
      if name !in channels {
        return Fail(NullPointer);
      }
      var space := channels[name];
      var r := space.Read(template, ADD_VALUE_WAIT, others);
      if r.Err? {
        return Fail(r.error);
      }
      if r.value.None? {
        return if PrintableFields(template.tupleFields.entries) then Fail(MissingMatch) else Fail(ClassCast);
      }
      var t := r.value.value;
      var removed := space.InternalRemove(t);
      var inserted := space.Insert(Bumped(t, howMuch));
      o := Pass;
    }

    /**
     * One channel under `decayAll` as written: the iterator is the set's own,
     * so its first step after the set has changed throws.
     */
    static method DecayChannelAsWritten(space: TupleSpace, howMuch: int) returns (o: Outcome)
      requires space.Valid()
      modifies space
      ensures space.Valid()
      ensures ChannelDecay(o, space.tuples) == DecayFirst(old(space.tuples), howMuch)
    {
      var snapshot := space.tuples;
      var modified := false;
      var i := 0;
      o := Pass;
      while i < |snapshot|
        invariant i <= |snapshot| && i <= 1 && (modified <==> i == 1) && space.Valid()
        invariant i == 0 ==> space.tuples == snapshot
        invariant i == 1 ==> space.tuples == Moved(snapshot, snapshot[0], howMuch)
      {
        if modified {
          return Fail(ConcurrentModification);
        }
        var t := snapshot[i];
        var removed := space.InternalRemove(t);
        var inserted := space.Insert(Bumped(t, howMuch));
        modified := true;
        i := i + 1;
      }
    }

    /**
     * `decayAll(howMuch)` as written: the channels are visited in the map's
     * order, and the first one holding two or more tuples ends the call with
     * the iterator's exception, leaving the channels not yet visited alone.
     */
    method DecayAllAsWritten(howMuch: int) returns (o: Outcome)
      requires Valid()
      modifies Spaces()
      ensures Valid() && channels == old(channels)
      ensures o.Fail? ==> o.error == ConcurrentModification
      ensures o.Fail? ==> exists n :: n in channels && |old(channels[n].tuples)| >= 2
      ensures forall n :: n in channels ==>
        channels[n].tuples in {old(channels[n].tuples), DecayFirst(old(channels[n].tuples), howMuch).after}
      ensures o.Pass? ==> forall n :: n in channels ==>
        |old(channels[n].tuples)| <= 1 && channels[n].tuples == DecayFirst(old(channels[n].tuples), howMuch).after
    {
      o := DecayEachAsWritten(channels, howMuch);
    }

    /** The loop of `decayAll` as written, over the map's channels `cs`. */
    static method DecayEachAsWritten(cs: map<string, TupleSpace>, howMuch: int) returns (o: Outcome)
      requires forall n :: n in cs ==> cs[n].Valid() && cs[n].spaceName == n
      modifies set n | n in cs :: cs[n]
      ensures forall n :: n in cs ==> cs[n].Valid()
      ensures o.Fail? ==> exists n :: n in cs && DecayFirst(old(cs[n].tuples), howMuch).outcome == o
      ensures forall n :: n in cs ==>
        cs[n].tuples in {old(cs[n].tuples), DecayFirst(old(cs[n].tuples), howMuch).after}
      ensures o.Pass? ==> forall n :: n in cs ==> DecayFirst(old(cs[n].tuples), howMuch) == ChannelDecay(Pass, cs[n].tuples)
    {
      var names := cs.Keys;
      while names != {}
        invariant names <= cs.Keys
        invariant forall n :: n in cs ==> cs[n].Valid()
        invariant forall n :: n in cs && n !in names ==> DecayedAsWritten(old(cs[n].tuples), howMuch, Pass, cs[n].tuples)
        invariant forall n :: n in names ==> cs[n].tuples == old(cs[n].tuples)
        decreases names
      {
        var n :| n in names;
        o := DecayChannelOf(cs, n, howMuch);
        if o.Fail? {
          return;
        }
        names := names - {n};
      }
      o := Pass;
    }

    /** One step of that loop: the channel `n` of `cs` decays as written, and no other channel changes. */
    static method DecayChannelOf(cs: map<string, TupleSpace>, n: string, howMuch: int) returns (o: Outcome)
      requires n in cs && forall m :: m in cs ==> cs[m].Valid() && cs[m].spaceName == m
      modifies cs[n]
      ensures forall m :: m in cs ==> cs[m].Valid()
      ensures forall m :: m in cs && m != n ==> cs[m].tuples == old(cs[m].tuples)
      ensures DecayedAsWritten(old(cs[n].tuples), howMuch, o, cs[n].tuples)
    {
      assert forall m :: m in cs && m != n ==> cs[m] != cs[n];
      o := DecayChannelAsWritten(cs[n], howMuch);
    }

    /**
     * One channel under `decayAll` as intended: every tuple is removed, then
     * each is inserted again with its new priority.
     */
    static method DecayChannel(space: TupleSpace, howMuch: int)
      requires space.Valid()
      modifies space
      ensures space.Valid()
      ensures space.tuples == Decayed(old(space.tuples), howMuch)
    {
      var snapshot := space.tuples;
      Empty(space);
      Refill(space, snapshot, howMuch);
    }

    /** Removes the stored tuples one by one, in the set's order. */
    static method Empty(space: TupleSpace)
      requires space.Valid()
      modifies space
      ensures space.Valid() && space.tuples == []
    {
      var snapshot := space.tuples;
      var i := 0;
      while i < |snapshot|
        invariant i <= |snapshot| && space.Valid()
        invariant space.tuples == snapshot[i..]
      {
        assert FirstWith(snapshot[i..], snapshot[i].priority) == 0;
        var removed := space.InternalRemove(snapshot[i]);
        i := i + 1;
      }
    }

    /** Inserts each tuple of `snapshot`, in order, moved by `howMuch`, into the emptied set. */
    static method Refill(space: TupleSpace, snapshot: seq<TupleData>, howMuch: int)
      requires space.Valid() && space.tuples == [] && AllPrintable(snapshot)
      modifies space
      ensures space.Valid() && space.tuples == Decayed(snapshot, howMuch)
    {
      var i := 0;
      while i < |snapshot|
        invariant i <= |snapshot| && space.Valid()
        invariant space.tuples == Decayed(snapshot[..i], howMuch)
      {
        assert snapshot[i] in snapshot;
        assert snapshot[..i + 1][..i] == snapshot[..i];
        var inserted := space.Insert(Bumped(snapshot[i], howMuch));
        i := i + 1;
      }
      assert snapshot[..i] == snapshot;
    }

    /** `decayAll(howMuch)` as intended: every channel decayed as `Decayed` says. */
    method DecayAll(howMuch: int)
      requires Valid()
      modifies Spaces()
      ensures Valid() && channels == old(channels)
      ensures forall n :: n in channels ==> channels[n].tuples == Decayed(old(channels[n].tuples), howMuch)
    {
      var names := channels.Keys;
      while names != {}
        invariant names <= channels.Keys && Valid()
        invariant forall n :: n in channels && n !in names ==>
          channels[n].tuples == Decayed(old(channels[n].tuples), howMuch)
        invariant forall n :: n in names ==> channels[n].tuples == old(channels[n].tuples)
        decreases names
      {
        var n :| n in names;
        DecayChannel(channels[n], howMuch);
        names := names - {n};
      }
    }
  }
}
