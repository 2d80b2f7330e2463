/**
 * The specification side of the SemiSpace logic layer
 * (org/semispace/SemiSpace.java): the statistics counters, the registry
 * after one scan, and the timeout loop of `findOrWaitLeaseForTemplate` as a
 * function of the clock readings.
 */
module SemiScan {
  import opened Values
  import opened SemiTuple
  import opened SemiBucket
  import opened SemiStore
  import opened SemiMatch

  /** The counters of `SemiSpaceStatistics`. */
  datatype Stats = Stats(
    read: int, take: int, write: int,
    missedRead: int, missedTake: int,
    blockingRead: int, blockingTake: int,
    listeners: int)

  const NoStats: Stats := Stats(0, 0, 0, 0, 0, 0, 0, 0)

  /** The one counter a completed scan increments: read or take on a hit, their "missed" twin otherwise. */
  function Counted(s: Stats, isTake: bool, hit: bool): (r: Stats)
    ensures r.write == s.write && r.listeners == s.listeners
    ensures r.blockingRead == s.blockingRead && r.blockingTake == s.blockingTake
    ensures r.read + r.take + r.missedRead + r.missedTake == s.read + s.take + s.missedRead + s.missedTake + 1
  {
    if isTake then
      if hit then s.(take := s.take + 1) else s.(missedTake := s.missedTake + 1)
    else
      if hit then s.(read := s.read + 1) else s.(missedRead := s.missedRead + 1)
  }

  /** The blocking-read (or blocking-take) gauge moved by `delta`. */
  function Blocking(s: Stats, isTake: bool, delta: int): Stats
  {
    if isTake then s.(blockingTake := s.blockingTake + delta) else s.(blockingRead := s.blockingRead + delta)
  }

  /**
   * The registry after a scan of `tag` with result `r`: the found tuple is
   * written back stamped, the evicted ids are cancelled in order, and a take
   * then cancels the found tuple. An exception changes nothing.
   */
  function ScanStore(s: Store, idseq: int, tag: string, r: ScanResult, isTake: bool): Store
  {
    match r.found
    case Err(_) => s
    case Ok(None) => RemoveAll(s, idseq, tag, r.evicted)
    case Ok(Some(f)) =>
      var s1 := RemoveAll(if tag in s then Updated(s, tag, f) else s, idseq, tag, r.evicted);
      if isTake then RemoveById(s1, idseq, tag, f.id) else s1
  }

  /** The stamped tuple a scan finds is in the bucket under its id, and is not among the evicted. */
  lemma ScanFoundStored(s: Store, tag: string, template: Fields, isTake: bool, now: int, r: ScanResult)
    requires WellFormed(s) && r == Scan(Listed(s, tag), template, isTake, now)
    requires r.found.Ok? && r.found.value.Some?
    ensures Lookup(s, tag, r.found.value.value.id).Some? && r.found.value.value.tag == Some(tag)
    ensures r.found.value.value.id !in r.evicted
  {
    var es := Listed(s, tag);
    ScanFinds(es, template, isTake, now);
    var k :| 0 <= k < |es| && FoundAt(es, k, template, isTake, now, r);
    assert es[k] in es;
    ExpiredBefore(es, k, now);
  }

  /** A scan's evictions are distinct ids of the bucket, whatever it finds. */
  lemma ScanEvictsStored(s: Store, tag: string, template: Fields, isTake: bool, now: int, r: ScanResult)
    requires WellFormed(s) && r == Scan(Listed(s, tag), template, isTake, now)
    ensures Distinct(r.evicted) && forall x :: x in r.evicted ==> Lookup(s, tag, x).Some?
  {
    var es := Listed(s, tag);
    ScanEvictsListed(es, template, isTake, now);
    forall x | x in r.evicted ensures Lookup(s, tag, x).Some? {
      var j :| 0 <= j < |es| && es[j].id == x;
      assert es[j] in es;
    }
  }

  /** A scan that finds nothing removes exactly the expired tuples. */
  lemma ScanStoreMissed(s: Store, idseq: int, tag: string, template: Fields, isTake: bool, now: int, r: ScanResult)
    requires WellFormed(s) && r == Scan(Listed(s, tag), template, isTake, now) && r.found == Ok(None)
    ensures var s' := ScanStore(s, idseq, tag, r, isTake);
      && WellFormed(s')
      && (forall t, i :: t != tag || i !in r.evicted ==> Lookup(s', t, i) == Lookup(s, t, i))
      && (forall i :: i in r.evicted ==> Lookup(s', tag, i) == None)
      && Total(s') == Total(s) - |r.evicted|
  {
    ScanEvictsStored(s, tag, template, isTake, now, r);
    RemoveAllEffect(s, idseq, tag, r.evicted);
  }

  /** A found tuple written back stamped, then the expired tuples before it removed. */
  lemma FoundWrittenBack(s: Store, idseq: int, tag: string, template: Fields, isTake: bool, now: int, r: ScanResult)
    requires WellFormed(s) && r == Scan(Listed(s, tag), template, isTake, now)
    requires r.found.Ok? && r.found.value.Some?
    ensures var f := r.found.value.value;
      var s1 := RemoveAll(Updated(s, tag, f), idseq, tag, r.evicted);
      && tag in s && f.id !in r.evicted
      && WellFormed(s1)
      && (forall t, i :: t != tag || (i !in r.evicted && i != f.id) ==> Lookup(s1, t, i) == Lookup(s, t, i))
      && (forall i :: i in r.evicted ==> Lookup(s1, tag, i) == None)
      && Lookup(s1, tag, f.id) == Some(f)
      && Total(s1) == Total(s) - |r.evicted|
  {
    var f := r.found.value.value;
    ScanEvictsStored(s, tag, template, isTake, now, r);
    ScanFoundStored(s, tag, template, isTake, now, r);
    UpdatedThenRemoved(s, idseq, tag, f, r.evicted);
  }

  /**
   * A scan that finds a tuple writes it back stamped, removes the expired
   * tuples before it and, for a take, the tuple itself.
   */
  lemma ScanStoreFound(s: Store, idseq: int, tag: string, template: Fields, isTake: bool, now: int, r: ScanResult)
    requires WellFormed(s) && r == Scan(Listed(s, tag), template, isTake, now)
    requires r.found.Ok? && r.found.value.Some?
    ensures var s' := ScanStore(s, idseq, tag, r, isTake);
      var f := r.found.value.value;
      && WellFormed(s')
      && (forall t, i :: t != tag || (i !in r.evicted && i != f.id) ==> Lookup(s', t, i) == Lookup(s, t, i))
      && (forall i :: i in r.evicted ==> Lookup(s', tag, i) == None)
      && Lookup(s', tag, f.id) == (if isTake then None else Some(f))
      && Total(s') == Total(s) - |r.evicted| - (if isTake then 1 else 0)
  {
    var f := r.found.value.value;
    FoundWrittenBack(s, idseq, tag, template, isTake, now, r);
    var s1 := RemoveAll(Updated(s, tag, f), idseq, tag, r.evicted);
    if isTake {
      RemoveByIdEffect(s1, idseq, tag, f.id);
      RemoveByIdWellFormed(s1, idseq, tag, f.id);
    }
  }

  /** A scan keeps the registry well formed and never adds a tuple. */
  lemma ScanStoreKeeps(s: Store, idseq: int, tag: string, template: Fields, isTake: bool, now: int, r: ScanResult)
    requires WellFormed(s) && r == Scan(Listed(s, tag), template, isTake, now)
    ensures WellFormed(ScanStore(s, idseq, tag, r, isTake))
    ensures Total(ScanStore(s, idseq, tag, r, isTake)) <= Total(s)
  {
    if r.found == Ok(None) {
      ScanStoreMissed(s, idseq, tag, template, isTake, now, r);
    } else if r.found.Ok? {
      ScanStoreFound(s, idseq, tag, template, isTake, now, r);
    }
  }

  /**
   * The clock readings of one `findOrWaitLeaseForTemplate` call: `clock[0]`
   * fixes the deadline, `clock[1]` starts the loop, and each attempt ends
   * with one more reading. The readings never go back, and the last one has
   * reached the deadline (the caller's clock runs on).
   */
  ghost predicate ClockOk(clock: seq<int>, timeout: int)
  {
    && |clock| >= 3
    && (forall i, j :: 0 <= i <= j < |clock| ==> clock[i] <= clock[j])
    && clock[|clock| - 1] >= clock[0] + timeout
  }

  /** The state after the timeout loop. */
  datatype Run = Run(store: Store, template: Fields, found: Result<Option<Entry>>, attempts: int, stats: Stats)

  /** One attempt of the timeout loop: the scan, then the registry and counters it leaves. */
  datatype Step = Step(scan: ScanResult, store: Store, stats: Stats)

  /**
   * One attempt: the scan at reading `k + 1`, and the registry and counters
   * it leaves. An exception leaves the registry as it was and the attempt's
   * gauge raised.
   */
  ghost function Attempt(s: Store, idseq: int, tag: string, template: Fields, isTake: bool,
                         timeout: int, clock: seq<int>, k: nat, st: Stats): (a: Step)
    requires WellFormed(s) && ClockOk(clock, timeout) && k + 2 < |clock|
    ensures a.scan == Scan(Listed(s, tag), template, isTake, clock[k + 1])
    ensures WellFormed(a.store) && Total(a.store) <= Total(s)
    ensures a.scan.found.Err? ==> a.store == s
    ensures a.stats == AfterAttempt(st, isTake, a.scan.found)
  {
    var r := Scan(Listed(s, tag), template, isTake, clock[k + 1]);
    if r.found.Err? then Step(r, s, AfterAttempt(st, isTake, r.found))
    else
      var s1 := ScanStore(s, idseq, tag, r, isTake);
      var duration := timeout - (clock[k + 1] - clock[1]);
      ScanStoreKeeps(s, idseq, tag, template, isTake, clock[k + 1], r);
      WaitedEffect(s1, tag);
      var s2 := if r.found.value.None? && duration > 0 then Waited(s1, tag) else s1;
      Step(r, s2, AfterAttempt(st, isTake, r.found))
  }

  /**
   * The do-while loop of `findOrWaitLeaseForTemplate` from attempt `k` on.
   * Attempt `k` raises the blocking gauge, scans at reading `clock[k + 1]`,
   * waits on the bucket if nothing was found and the remaining duration
   * `timeout - (clock[k + 1] - clock[1])` is positive, lowers the gauge and
   * reads `clock[k + 2]`; the loop goes on while nothing is found and that
   * reading is before the deadline. An exception ends the loop with the
   * gauge still raised. The loop keeps the registry well formed and never
   * makes it grow.
   */
  ghost function Attempts(s: Store, idseq: int, tag: string, template: Fields, isTake: bool,
                          timeout: int, clock: seq<int>, k: nat, st: Stats): (run: Run)
    requires WellFormed(s) && ClockOk(clock, timeout) && k + 2 < |clock|
    ensures WellFormed(run.store) && Total(run.store) <= Total(s)
    decreases |clock| - k
  {
    var a := Attempt(s, idseq, tag, template, isTake, timeout, clock, k, st);
    if a.scan.found == Ok(None) && clock[k + 2] < clock[0] + timeout then
      Attempts(a.store, idseq, tag, a.scan.template, isTake, timeout, clock, k + 1, a.stats)
    else Run(a.store, a.scan.template, a.scan.found, k + 1, a.stats)
  }

  /**
   * The timeout loop ends at the first tuple found, at the first exception,
   * or at the first reading that has reached the deadline, and at no earlier
   * reading.
   */
  lemma {:induction false} AttemptsEnd(s: Store, idseq: int, tag: string, template: Fields, isTake: bool,
                                      timeout: int, clock: seq<int>, k: nat, st: Stats)
    requires WellFormed(s) && ClockOk(clock, timeout) && k + 2 < |clock|
    ensures var run := Attempts(s, idseq, tag, template, isTake, timeout, clock, k, st);
      && k + 1 <= run.attempts && run.attempts + 1 < |clock|
      && (run.found == Ok(None) ==> clock[run.attempts + 1] >= clock[0] + timeout)
      && (forall j :: k + 2 <= j <= run.attempts ==> clock[j] < clock[0] + timeout)
    decreases |clock| - k
  {
    var a := Attempt(s, idseq, tag, template, isTake, timeout, clock, k, st);
    if a.scan.found == Ok(None) && clock[k + 2] < clock[0] + timeout {
      AttemptsEnd(a.store, idseq, tag, a.scan.template, isTake, timeout, clock, k + 1, a.stats);
      assert Attempts(s, idseq, tag, template, isTake, timeout, clock, k, st)
          == Attempts(a.store, idseq, tag, a.scan.template, isTake, timeout, clock, k + 1, a.stats);
    } else {
      assert Attempts(s, idseq, tag, template, isTake, timeout, clock, k, st)
          == Run(a.store, a.scan.template, a.scan.found, k + 1, a.stats);
    }
  }

  /**
   * `final` is `st` after `n` attempts that ended with `found`: one read,
   * take or miss counted per attempt that did not throw, the write and
   * listener counters untouched, and the gauges where they were unless the
   * last attempt threw and left its gauge raised.
   */
  ghost predicate CountedRun(final: Stats, st: Stats, isTake: bool, n: int, found: Result<Option<Entry>>)
  {
    var g := if found.Err? then Blocking(st, isTake, 1) else st;
    && final.write == st.write && final.listeners == st.listeners
    && final.blockingRead == g.blockingRead && final.blockingTake == g.blockingTake
    && Tally(final) == Tally(st) + n - (if found.Err? then 1 else 0)
  }

  /** One attempt that found nothing, followed by `n` more, is `n + 1` attempts. */
  lemma CountedRunStep(final: Stats, st: Stats, isTake: bool, n: int, found: Result<Option<Entry>>)
    requires CountedRun(final, AfterAttempt(st, isTake, Ok(None)), isTake, n, found)
    ensures CountedRun(final, st, isTake, n + 1, found)
  {
  }

  /** Every attempt of the timeout loop is counted, and its gauge restored unless it threw. */
  lemma {:induction false} AttemptsStats(s: Store, idseq: int, tag: string, template: Fields, isTake: bool,
                                        timeout: int, clock: seq<int>, k: nat, st: Stats)
    requires WellFormed(s) && ClockOk(clock, timeout) && k + 2 < |clock|
    ensures var run := Attempts(s, idseq, tag, template, isTake, timeout, clock, k, st);
      CountedRun(run.stats, st, isTake, run.attempts - k, run.found)
    decreases |clock| - k
  {
    var a := Attempt(s, idseq, tag, template, isTake, timeout, clock, k, st);
    if a.scan.found == Ok(None) && clock[k + 2] < clock[0] + timeout {
      AttemptsStats(a.store, idseq, tag, a.scan.template, isTake, timeout, clock, k + 1, a.stats);
      var run := Attempts(a.store, idseq, tag, a.scan.template, isTake, timeout, clock, k + 1, a.stats);
      assert Attempts(s, idseq, tag, template, isTake, timeout, clock, k, st) == run;
      CountedRunStep(run.stats, st, isTake, run.attempts - (k + 1), run.found);
    } else {
      assert Attempts(s, idseq, tag, template, isTake, timeout, clock, k, st)
          == Run(a.store, a.scan.template, a.scan.found, k + 1, a.stats);
    }
  }

  /**
   * The counters after one attempt: the gauge raised for the attempt, then,
   * unless it threw, one read, take or miss counted and the gauge lowered.
   */
  function AfterAttempt(st: Stats, isTake: bool, found: Result<Option<Entry>>): (r: Stats)
    ensures r.write == st.write && r.listeners == st.listeners
    ensures found.Err? ==> r == Blocking(st, isTake, 1) && Tally(r) == Tally(st)
    ensures found.Ok? ==> r.blockingRead == st.blockingRead && r.blockingTake == st.blockingTake
    ensures found.Ok? ==> Tally(r) == Tally(st) + 1
  {
    var st1 := Blocking(st, isTake, 1);
    if found.Err? then st1 else Blocking(Counted(st1, isTake, found.value.Some?), isTake, -1)
  }

  /** The read, take and miss counters added up. */
  function Tally(s: Stats): int
  {
    s.read + s.take + s.missedRead + s.missedTake
  }

  /**
   * With `timeout <= 0` the loop makes exactly one attempt, and never waits:
   * the registry is the one the single scan leaves.
   */
  lemma AttemptsOnce(s: Store, idseq: int, tag: string, template: Fields, isTake: bool,
                     timeout: int, clock: seq<int>, st: Stats)
    requires WellFormed(s) && ClockOk(clock, timeout) && timeout <= 0
    ensures var run := Attempts(s, idseq, tag, template, isTake, timeout, clock, 0, st);
      var r := Scan(Listed(s, tag), template, isTake, clock[1]);
      && run.attempts == 1 && run.found == r.found && run.template == r.template
      && run.store == ScanStore(s, idseq, tag, r, isTake)
  {
    assert clock[0] <= clock[2];
  }

  /**
   * `findOrWaitLeaseForTemplate` as a whole: a tag that is not a string
   * fails the cast before any attempt; a null tag makes the first attempt
   * throw, leaving its gauge raised; a string tag runs the loop.
   */
  ghost function Lease(s: Store, idseq: int, template: Fields, isTake: bool, timeout: int, clock: seq<int>, st: Stats): Run
    requires WellFormed(s) && ClockOk(clock, timeout)
  {
    match Get(template, TAG_KEY)
    case Str(tag) => Attempts(s, idseq, tag, template, isTake, timeout, clock, 0, st)
    case Null => Run(s, template, Err(ObjectError), 1, Blocking(st, isTake, 1))
    case _ => Run(s, template, Err(ClassCast), 0, st)
  }
}
