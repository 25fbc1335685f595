/** The fixed-window rate limiter in front of every query, on exact time in seconds. */
module RateLimit {
  import opened Collections

  datatype Tracker = Tracker(lastReset: real, count: int)

  /** The clock readings of one call: on entry, and after its sleep if it sleeps. */
  datatype Reading = Reading(now: real, woken: real)

  predicate Expired(t: Tracker, duration: real, now: real) {
    now - t.lastReset >= duration
  }

  predicate MustSleep(t: Tracker, limit: int, duration: real, now: real) {
    !Expired(t, duration, now) && t.count + 1 > limit
  }

  function SleepTime(t: Tracker, duration: real, now: real): (s: real)
  {
    duration - (now - t.lastReset) + 1.0
  }

  /** The moment the call lets its query through. */
  function AdmittedAt(t: Tracker, limit: int, duration: real, r: Reading): (at: real)
  {
    if MustSleep(t, limit, duration, r.now) then r.woken else r.now
  }

  function Next(t: Tracker, limit: int, duration: real, r: Reading): (t': Tracker)
  {
    if Expired(t, duration, r.now) then Tracker(r.now, 1)
    else if MustSleep(t, limit, duration, r.now) then Tracker(r.woken, 1)
    else Tracker(t.lastReset, t.count + 1)
  }

  class RateTracker {
    var lastReset: real
    var count: int

    function Value(): (t: Tracker)
      reads this
    {
      Tracker(lastReset, count)
    }

    constructor (now: real)
      ensures Value() == Tracker(now, 0)
    {
      lastReset, count := now, 0;
    }

    method RateLimitQuery(limit: int, duration: real, reading: Reading) returns (at: real)
      modifies this
      ensures Value() == Next(old(Value()), limit, duration, reading)
      ensures at == AdmittedAt(old(Value()), limit, duration, reading)
    {
      var now := reading.now;
      var elapsed := now - lastReset;
      if elapsed >= duration {
        lastReset := now;
        count := 1;
        at := now;
      } else {
        count := count + 1;
        at := now;
        if count > limit {
          at := reading.woken;
          lastReset := reading.woken;
          count := 1;
        }
      }
    }
  }

  // ---------------------------------------------------------------- runs

  /** The tracker after serving the first k readings. */
  function After(start: Tracker, limit: int, duration: real, readings: seq<Reading>, k: nat): (t: Tracker)
    requires k <= |readings|
  {
    if k == 0 then start else Next(After(start, limit, duration, readings, k - 1), limit, duration, readings[k - 1])
  }

  /** When query k was admitted. */
  function Admission(start: Tracker, limit: int, duration: real, readings: seq<Reading>, k: nat): (at: real)
    requires k < |readings|
  {
    AdmittedAt(After(start, limit, duration, readings, k), limit, duration, readings[k])
  }

  /** Query k started a new window. */
  predicate Resets(start: Tracker, limit: int, duration: real, readings: seq<Reading>, k: nat)
    requires k < |readings|
  {
    var t := After(start, limit, duration, readings, k);
    Expired(t, duration, readings[k].now) || MustSleep(t, limit, duration, readings[k].now)
  }

  /** Serial calls on a monotone clock, each sleep lasting at least as long as asked. */
  ghost predicate Serial(start: Tracker, limit: int, duration: real, readings: seq<Reading>) {
    && start.count == 0
    && (forall k :: 0 <= k < |readings| ==>
          && (if k == 0 then start.lastReset else Admission(start, limit, duration, readings, k - 1)) <= readings[k].now
          && (var t := After(start, limit, duration, readings, k);
              MustSleep(t, limit, duration, readings[k].now)
              ==> readings[k].woken >= readings[k].now + SleepTime(t, duration, readings[k].now)))
  }

  /** What one window can hold: the limit, or a single query when the limit allows none. */
  function PerWindow(limit: int): (n: int)
    ensures n >= 1 && n >= limit && (n == 1 || n == limit)
  {
    if limit >= 1 then limit else 1
  }

  lemma {:induction false} WithinLimit(start: Tracker, limit: int, duration: real, readings: seq<Reading>, k: nat)
    requires Serial(start, limit, duration, readings) && k <= |readings|
    ensures var t := After(start, limit, duration, readings, k);
            && 0 <= t.count <= PerWindow(limit)
            && (k > 0 ==> t.count >= 1 && t.lastReset <= Admission(start, limit, duration, readings, k - 1))
  {
    if k > 0 {
      WithinLimit(start, limit, duration, readings, k - 1);
    }
  }

  /** Without a reset the counter grows with every query admitted. */
  lemma {:induction false} CountedSince(start: Tracker, limit: int, duration: real, readings: seq<Reading>, i: nat, j: nat)
    requires Serial(start, limit, duration, readings) && i < j <= |readings|
    requires forall k :: i < k < j ==> !Resets(start, limit, duration, readings, k)
    ensures After(start, limit, duration, readings, j).count >= j - i
    decreases j
  {
    hide Serial, Resets;
    WithinLimit(start, limit, duration, readings, j);
    if i < j - 1 {
      CountedSince(start, limit, duration, readings, i, j - 1);
      CountedOn(start, limit, duration, readings, j - 1);
    }
  }

  lemma CountedOn(start: Tracker, limit: int, duration: real, readings: seq<Reading>, k: nat)
    requires k < |readings| && !Resets(start, limit, duration, readings, k)
    ensures After(start, limit, duration, readings, k + 1).count == After(start, limit, duration, readings, k).count + 1
  {
  }

  /** From one query up to the next that resets the window, the resetting one not counted, at most the
      per-window limit is admitted. */
  lemma AdmittedBetweenResets(start: Tracker, limit: int, duration: real, readings: seq<Reading>, i: nat, j: nat)
    requires Serial(start, limit, duration, readings) && i < j <= |readings|
    requires forall k :: i < k < j ==> !Resets(start, limit, duration, readings, k)
    ensures j - i <= PerWindow(limit)
  {
    CountedSince(start, limit, duration, readings, i, j);
    WithinLimit(start, limit, duration, readings, j);
  }

  /** The reset caused by query k comes at least `duration` after the tracker's last one, and is recorded. */
  lemma ResetRecorded(start: Tracker, limit: int, duration: real, readings: seq<Reading>, k: nat)
    requires Serial(start, limit, duration, readings) && k < |readings|
    requires Resets(start, limit, duration, readings, k)
    ensures Admission(start, limit, duration, readings, k)
         >= After(start, limit, duration, readings, k).lastReset + duration
    ensures After(start, limit, duration, readings, k + 1)
         == Tracker(Admission(start, limit, duration, readings, k), 1)
  {
  }

  /** A query that has to sleep is let through no sooner than one second behind the end of the window it found full. */
  lemma SleeperWaitsOut(start: Tracker, limit: int, duration: real, readings: seq<Reading>, k: nat)
    requires Serial(start, limit, duration, readings) && k < |readings|
    requires var t := After(start, limit, duration, readings, k);
             readings[k].now - t.lastReset < duration && t.count >= limit
    ensures Admission(start, limit, duration, readings, k)
         >= After(start, limit, duration, readings, k).lastReset + duration + 1.0
  {
  }

  /** How the tracker `later` can relate to the tracker `first` left by a query admitted at `at`, `gap`
      queries earlier: no reset since and the counter grew by one a query; or at least one reset, after
      `at`; or at least two, and then the last reset is a full duration after `at`. */
  predicate Window(first: Tracker, at: real, gap: nat, later: Tracker, limit: int, duration: real) {
    || (later.count == first.count + gap && later.lastReset == first.lastReset)
    || (gap <= PerWindow(limit) - first.count + later.count && later.lastReset >= at)
    || later.lastReset >= at + duration
  }

  lemma WindowStep(first: Tracker, at: real, gap: nat, t: Tracker, limit: int, duration: real, r: Reading)
    requires Window(first, at, gap, t, limit, duration)
    requires t.count <= PerWindow(limit) && at <= AdmittedAt(t, limit, duration, r) && t.lastReset <= r.now
    requires MustSleep(t, limit, duration, r.now) ==> r.woken >= r.now + SleepTime(t, duration, r.now)
    requires duration >= 0.0 || Expired(t, duration, r.now)
    ensures Window(first, at, gap + 1, Next(t, limit, duration, r), limit, duration)
  {
  }

  lemma {:induction false} WindowsBetween(start: Tracker, limit: int, duration: real, readings: seq<Reading>, i: nat, j: nat)
    requires Serial(start, limit, duration, readings) && i <= j < |readings|
    ensures Window(After(start, limit, duration, readings, i + 1), Admission(start, limit, duration, readings, i), j - i,
                   After(start, limit, duration, readings, j + 1), limit, duration)
    decreases j
  {
    hide Serial, Admission, Next, Window, PerWindow;
    if i < j {
      WindowsBetween(start, limit, duration, readings, i, j - 1);
      WithinLimit(start, limit, duration, readings, j);
      AdmissionsInOrder(start, limit, duration, readings, i, j);
      ReadingInOrder(start, limit, duration, readings, j);
      assert After(start, limit, duration, readings, j + 1) == Next(After(start, limit, duration, readings, j), limit, duration, readings[j]);
      hide After;
      WindowStep(After(start, limit, duration, readings, i + 1), Admission(start, limit, duration, readings, i), j - 1 - i,
                 After(start, limit, duration, readings, j), limit, duration, readings[j]);
    } else {
      hide After;
      WindowStart(After(start, limit, duration, readings, i + 1), Admission(start, limit, duration, readings, i), limit, duration);
    }
  }

  lemma WindowStart(first: Tracker, at: real, limit: int, duration: real)
    ensures Window(first, at, 0, first, limit, duration)
  {
  }

  lemma ReadingInOrder(start: Tracker, limit: int, duration: real, readings: seq<Reading>, k: nat)
    requires Serial(start, limit, duration, readings) && k < |readings|
    ensures var t := After(start, limit, duration, readings, k);
            && t.lastReset <= readings[k].now
            && Admission(start, limit, duration, readings, k) == AdmittedAt(t, limit, duration, readings[k])
            && (MustSleep(t, limit, duration, readings[k].now)
                ==> readings[k].woken >= readings[k].now + SleepTime(t, duration, readings[k].now))
            && (duration >= 0.0 || Expired(t, duration, readings[k].now))
  {
    WithinLimit(start, limit, duration, readings, k);
  }

  lemma {:induction false} AdmissionsInOrder(start: Tracker, limit: int, duration: real, readings: seq<Reading>, i: nat, j: nat)
    requires Serial(start, limit, duration, readings) && i <= j < |readings|
    ensures Admission(start, limit, duration, readings, i) <= Admission(start, limit, duration, readings, j)
    decreases j
  {
    hide After;
    if i < j {
      AdmissionsInOrder(start, limit, duration, readings, i, j - 1);
      assert Admission(start, limit, duration, readings, j - 1) <= readings[j].now;
    }
  }

  /** The recorded reset never moves back behind one that happened. */
  lemma {:induction false} LastResetStays(start: Tracker, limit: int, duration: real, readings: seq<Reading>, i: nat, j: nat)
    requires Serial(start, limit, duration, readings) && i < j < |readings|
    requires Resets(start, limit, duration, readings, i)
    ensures After(start, limit, duration, readings, j).lastReset >= Admission(start, limit, duration, readings, i)
    decreases j
  {
    hide Serial, Admission;
    if i == j - 1 {
      ResetRecorded(start, limit, duration, readings, i);
    } else {
      LastResetStays(start, limit, duration, readings, i, j - 1);
      AdmissionsInOrder(start, limit, duration, readings, i, j - 1);
      ReadingInOrder(start, limit, duration, readings, j - 1);
    }
  }

  /** Any two resets are at least one duration apart. */
  lemma ResetsApart(start: Tracker, limit: int, duration: real, readings: seq<Reading>, i: nat, j: nat)
    requires Serial(start, limit, duration, readings) && i < j < |readings|
    ensures Resets(start, limit, duration, readings, i) && Resets(start, limit, duration, readings, j) ==>
              Admission(start, limit, duration, readings, j) >= Admission(start, limit, duration, readings, i) + duration
  {
    hide Serial, Admission, After, Resets;
    if Resets(start, limit, duration, readings, i) && Resets(start, limit, duration, readings, j) {
      LastResetStays(start, limit, duration, readings, i, j);
      ResetRecorded(start, limit, duration, readings, j);
    }
  }

  /** Any 2 * limit + 1 consecutive admissions span at least one full duration. */
  lemma BurstSpansDuration(start: Tracker, limit: int, duration: real, readings: seq<Reading>, i: nat, j: nat)
    requires Serial(start, limit, duration, readings) && j < |readings|
    requires j >= i + 2 * PerWindow(limit)
    ensures Admission(start, limit, duration, readings, j) >= Admission(start, limit, duration, readings, i) + duration
  {
    hide After, Admission, Serial;
    WindowsBetween(start, limit, duration, readings, i, j);
    WithinLimit(start, limit, duration, readings, i + 1);
    WithinLimit(start, limit, duration, readings, j + 1);
  }

  /** The `width` numbers from `low` on. */
  function Range(low: nat, width: nat): (ks: set<nat>)
    ensures |ks| == width
    ensures forall k: nat :: k in ks <==> low <= k < low + width
  {
    if width == 0 then {} else Range(low, width - 1) + {low + width - 1}
  }

  lemma CloseIndices(ks: set<nat>, width: nat)
    requires forall i, j :: i in ks && j in ks && i <= j ==> j < i + width
    ensures |ks| <= width
  {
    if ks != {} {
      var low := Least(ks);
      SubsetSize(ks, Range(low, width));
    }
  }

  lemma {:induction false} SubsetSize(a: set<nat>, b: set<nat>)
    requires a <= b
    ensures |a| <= |b|
  {
    if a != {} {
      var x :| x in a;
      SubsetSize(a - {x}, b - {x});
    }
  }

  /** The queries admitted in the half-open interval of one duration from `from`. */
  function AdmittedIn(start: Tracker, limit: int, duration: real, readings: seq<Reading>, from: real): (ks: set<nat>)
  {
    set k: nat | k < |readings| && from <= Admission(start, limit, duration, readings, k) < from + duration
  }

  /** The limiter's guarantee over any interval, aligned with its windows or not: at most twice the
      per-window limit. */
  lemma IntervalBound(start: Tracker, limit: int, duration: real, readings: seq<Reading>, from: real)
    requires Serial(start, limit, duration, readings)
    ensures |AdmittedIn(start, limit, duration, readings, from)| <= 2 * PerWindow(limit)
  {
    hide After, Admission, Serial;
    var ks := AdmittedIn(start, limit, duration, readings, from);
    forall i, j | i in ks && j in ks && i <= j ensures j < i + 2 * PerWindow(limit) {
      if j >= i + 2 * PerWindow(limit) {
        BurstSpansDuration(start, limit, duration, readings, i, j);
      }
    }
    CloseIndices(ks, 2 * PerWindow(limit));
  }

  /** One window's worth of queries half way through the first window, and another at its end. */
  function Burst(limit: nat, duration: real): (readings: seq<Reading>)
    ensures |readings| == 2 * limit
  {
    seq(2 * limit, k => var at := if k < limit then duration / 2.0 else duration; Reading(at, at))
  }

  lemma {:induction false} AfterBurst(limit: nat, duration: real, k: nat)
    requires limit >= 1 && duration > 0.0 && k <= 2 * limit
    ensures After(Tracker(0.0, 0), limit, duration, Burst(limit, duration), k)
         == if k <= limit then Tracker(0.0, k) else Tracker(duration, k - limit)
  {
    if k > 0 {
      AfterBurst(limit, duration, k - 1);
    }
  }

  lemma BurstAdmitted(limit: nat, duration: real, k: nat)
    requires limit >= 1 && duration > 0.0 && k < 2 * limit
    ensures !MustSleep(After(Tracker(0.0, 0), limit, duration, Burst(limit, duration), k), limit, duration, Burst(limit, duration)[k].now)
    ensures Admission(Tracker(0.0, 0), limit, duration, Burst(limit, duration), k) == if k < limit then duration / 2.0 else duration
  {
    AfterBurst(limit, duration, k);
    hide After;
  }

  /** The bound is reached for every limit and duration: all queries of a burst are admitted within one duration. */
  lemma BoundIsTight(limit: nat, duration: real)
    requires limit >= 1 && duration > 0.0
    ensures var start, readings := Tracker(0.0, 0), Burst(limit, duration);
            && Serial(start, limit, duration, readings)
            && |AdmittedIn(start, limit, duration, readings, duration / 2.0)| == 2 * PerWindow(limit)
  {
    hide After, Admission, MustSleep;
    forall k | 0 <= k < 2 * limit
      ensures !MustSleep(After(Tracker(0.0, 0), limit, duration, Burst(limit, duration), k), limit, duration, Burst(limit, duration)[k].now)
      ensures Admission(Tracker(0.0, 0), limit, duration, Burst(limit, duration), k) == if k < limit then duration / 2.0 else duration
    {
      BurstAdmitted(limit, duration, k);
    }
    assert AdmittedIn(Tracker(0.0, 0), limit, duration, Burst(limit, duration), duration / 2.0) == Range(0, 2 * limit);
  }
}
