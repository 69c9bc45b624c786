/**
 The switch's timer list. Each time the scheduler works out how many seconds every timer
 has to wait, it sleeps for the shortest of these and then acts on the timers that had it.
 */
module TimerSchedule {

  const WEEK := 7 * 24 * 3600
  const MONDAY := 1388937600
  const FAR := 0xFFF_FFFF

  /** An entry of the list. The source tells the kinds apart by the first letter; any
      other entry keeps the wait of 0 that its array starts with. */
  datatype Timer = Fixed(at: int) | Loop(period: int) | Weekly(offset: int) | Unknown

  /** C's remainder, which takes the sign of the dividend. */
  function Rem(a: int, b: int): int
    requires b != 0
  {
    if a >= 0 then a % b else -((-a) % b)
  }

  /** Weeks begin on a Monday at midnight in China, eight hours ahead of UTC: 16076 days
      after the first day of 1970, which was a Thursday. */
  lemma WeeksBeginOnMonday()
    ensures MONDAY + 8 * 3600 == 16076 * 24 * 3600 && (3 + 16076) % 7 == 0 && WEEK == 604800
  {
  }

  /** A list entry that the source can evaluate at all: it divides by the period. */
  predicate Defined(t: Timer) {
    t.Loop? ==> t.period != 0
  }

  /** `wait_time_second` at time `now`. */
  function Wait(t: Timer, now: int): int
    requires Defined(t)
  {
    match t
    case Fixed(at) => at - now
    case Loop(period) => period - Rem(now, period)
    case Weekly(offset) =>
      var monday := Rem(now - MONDAY, WEEK);
      if offset > monday then offset - monday else WEEK - monday + offset
    case Unknown => 0
  }

  /** The instants at which a timer is to act. */
  ghost predicate Due(t: Timer, s: int) {
    match t
    case Fixed(at) => s == at
    case Loop(period) => period > 0 && s % period == 0
    case Weekly(offset) => (s - MONDAY) % WEEK == offset % WEEK
    case Unknown => false
  }

  // ---------------------------------------------------------------- one timer

  /** The wait leads to a due instant, and to the first one. */
  ghost predicate Next(t: Timer, now: int, w: int) {
    Due(t, now + w) && forall s | now < s < now + w :: !Due(t, s)
  }

  lemma DivMod(a: int, b: int, q: int, r: int)
    requires b > 0 && a == q * b + r && 0 <= r < b
    ensures a % b == r && a / b == q
  {
    assert a == b * (a / b) + a % b;
    Apart(b, a / b, a % b, q, r);
  }

  /** Quotient and remainder are unique. */
  lemma Apart(b: int, q: int, r: int, q': int, r': int)
    requires 0 <= r < b && 0 <= r' < b && b * q + r == q' * b + r'
    ensures q == q' && r == r'
  {
    Grows(b, q, q');
    Grows(b, q', q);
  }

  lemma Grows(b: int, q: int, q': int)
    requires b > 0
    ensures q < q' ==> b * q + b <= b * q'
  {
    if q < q' {
      Positive(b, q' - q - 1);
      assert b * q' == b * (q + 1 + (q' - q - 1)) == b * q + b + b * (q' - q - 1);
    }
  }

  lemma Positive(b: int, d: int)
    requires b > 0 && d >= 0
    ensures b * d >= 0
  {
  }

  /** No multiple of `b` lies between two neighbouring ones. */
  lemma NoneBetween(b: int, k: int, s: int)
    requires b > 0 && k % b == 0 && k < s < k + b
    ensures s % b != 0
  {
    assert k == b * (k / b);
    DivMod(s, b, k / b, s - k);
  }

  lemma NextMultiple(b: int, k: int)
    requires b > 0 && k % b == 0
    ensures (k + b) % b == 0
  {
    assert k == b * (k / b);
    assert k + b == (k / b + 1) * b;
    DivMod(k + b, b, k / b + 1, 0);
  }

  lemma LoopNext(period: int, now: int)
    requires period > 0 && now >= 0
    ensures 0 < Wait(Loop(period), now) <= period && Next(Loop(period), now, Wait(Loop(period), now))
  {
    var k := now - now % period;
    assert k == period * (now / period);
    DivMod(k, period, now / period, 0);
    NextMultiple(period, k);
    forall s | now < s < k + period
      ensures !Due(Loop(period), s)
    {
      NoneBetween(period, k, s);
    }
  }

  lemma RemQuotient(a: int, b: int) returns (q: int)
    requires b > 0
    ensures a == q * b + Rem(a, b) && -b < Rem(a, b) < b && (a >= 0 ==> Rem(a, b) >= 0)
  {
    if a >= 0 {
      q := a / b;
    } else {
      q := -((-a) / b);
      assert -a == b * ((-a) / b) + (-a) % b;
      assert q * b == -(b * ((-a) / b));
    }
  }

  /** A weekly timer's wait is the time to its next instant exactly when the clock is not
      before the first Monday, or the wait is at most a week: before that Monday the
      remainder is negative, and the first instant of all can be passed over. */
  lemma WeeklyNextIff(offset: int, now: int)
    requires 0 <= offset < WEEK
    ensures var t, w := Weekly(offset), Wait(Weekly(offset), now);
      w > 0 && Due(t, now + w) && (Next(t, now, w) <==> now >= MONDAY || offset <= WEEK + Rem(now - MONDAY, WEEK))
  {
    var t, w := Weekly(offset), Wait(Weekly(offset), now);
    var q := RemQuotient(now - MONDAY, WEEK);
    var k := if offset > Rem(now - MONDAY, WEEK) then q else q + 1;
    WeekGrid(offset, now, w, k);
  }

  /** A weekly instant at distance `w` is the next one exactly when it is at most a week away. */
  lemma WeekGrid(offset: int, now: int, w: int, k: int)
    requires 0 <= offset < WEEK && w > 0 && now + w - MONDAY == k * WEEK + offset
    ensures Due(Weekly(offset), now + w)
    ensures Next(Weekly(offset), now, w) <==> w <= WEEK
  {
    DivMod(now + w - MONDAY, WEEK, k, offset);
    if w <= WEEK {
      forall s | now < s < now + w
        ensures !Due(Weekly(offset), s)
      {
        SameWeek(offset, now + w, s);
      }
    } else {
      DivMod(now + w - WEEK - MONDAY, WEEK, k - 1, offset);
      assert Due(Weekly(offset), now + w - WEEK);
    }
  }

  lemma SameWeek(offset: int, a: int, s: int)
    requires 0 <= offset < WEEK && (a - MONDAY) % WEEK == offset && a - WEEK < s < a
    ensures !Due(Weekly(offset), s)
  {
  }

  // ---------------------------------------------------------------- the list

  /** The timers that the schedule promises anything for. */
  predicate Regular(t: Timer) {
    match t
    case Fixed(_) => true
    case Loop(period) => period > 0
    case Weekly(offset) => 0 <= offset < WEEK
    case Unknown => true
  }

  predicate AllRegular(ts: seq<Timer>) {
    forall i | 0 <= i < |ts| :: Regular(ts[i])
  }

  predicate AllDefined(ts: seq<Timer>) {
    forall i | 0 <= i < |ts| :: Defined(ts[i])
  }

  /** `esp_platform_find_min_time`: the least wait that is not negative and below FAR. */
  function MinWait(ts: seq<Timer>, now: int): (m: nat)
    requires AllDefined(ts)
    ensures m <= FAR
    ensures forall i | 0 <= i < |ts| :: Wait(ts[i], now) < 0 || m <= Wait(ts[i], now)
    ensures m == FAR || exists i | 0 <= i < |ts| :: Wait(ts[i], now) == m
  {
    if ts == [] then FAR
    else
      var n := |ts| - 1;
      var m := MinWait(ts[..n], now);
      assert forall i | 0 <= i < n :: ts[..n][i] == ts[i];
      var w := Wait(ts[n], now);
      if w < m && w >= 0 then w else m
  }

  /** The positions of the timers that act when the shortest wait is over. */
  function Selected(ts: seq<Timer>, now: int, m: int): (r: seq<nat>)
    requires AllDefined(ts)
    ensures forall i :: i in r <==> 0 <= i < |ts| && Wait(ts[i], now) == m
    ensures forall a, b | 0 <= a < b < |r| :: r[a] < r[b]
  {
    if ts == [] then []
    else
      var n := |ts| - 1;
      var r := Selected(ts[..n], now, m);
      assert forall i | 0 <= i < n :: ts[..n][i] == ts[i];
      assert forall a | 0 <= a < |r| :: r[a] in r;
      if Wait(ts[n], now) == m then r + [n] else r
  }

  /** The chain stops at once when the shortest wait is 0. */
  predicate Halts(ts: seq<Timer>, now: int)
    requires AllDefined(ts)
  {
    MinWait(ts, now) == 0
  }

  lemma RegularDefined(ts: seq<Timer>)
    requires AllRegular(ts)
    ensures AllDefined(ts)
  {
  }

  /** A regular timer that has something to wait for waits for its first instant. A fixed
      timer whose instant has passed waits for nothing. */
  lemma WaitsForNext(t: Timer, now: int)
    requires Regular(t) && now >= MONDAY
    ensures var w := Wait(t, now);
      && (w > 0 ==> Next(t, now, w))
      && (w == 0 <==> t == Fixed(now) || t == Unknown)
      && (w < 0 ==> forall s | s > now :: !Due(t, s))
  {
    match t
    case Loop(period) => LoopNext(period, now);
    case Weekly(offset) => WeeklyNextIff(offset, now);
    case _ =>
  }

  /** The chain stops exactly when a fixed timer is due right now, or the list has an entry
      of no known kind. */
  lemma HaltsIff(ts: seq<Timer>, now: int)
    requires AllRegular(ts) && now >= MONDAY
    ensures AllDefined(ts) && (Halts(ts, now) <==> Fixed(now) in ts || Unknown in ts)
  {
    RegularDefined(ts);
    forall i | 0 <= i < |ts|
      ensures Wait(ts[i], now) == 0 <==> ts[i] == Fixed(now) || ts[i] == Unknown
    {
      WaitsForNext(ts[i], now);
    }
    if Fixed(now) in ts {
      var i :| 0 <= i < |ts| && ts[i] == Fixed(now);
      assert Wait(ts[i], now) == 0;
    }
    if Unknown in ts {
      var i :| 0 <= i < |ts| && ts[i] == Unknown;
      assert Wait(ts[i], now) == 0;
    }
  }

  /** One sleep: nothing is due before it ends, and what is selected is what is due then. */
  lemma SleepIsExact(ts: seq<Timer>, now: int)
    requires AllRegular(ts) && now >= MONDAY && AllDefined(ts) && !Halts(ts, now)
    ensures var m := MinWait(ts, now);
      && (forall i, s | 0 <= i < |ts| && now < s < now + m :: !Due(ts[i], s))
      && (forall i :: i in Selected(ts, now, m) <==> 0 <= i < |ts| && Due(ts[i], now + m))
  {
    var m := MinWait(ts, now);
    forall i, s | 0 <= i < |ts| && now < s < now + m
      ensures !Due(ts[i], s)
    {
      WaitsForNext(ts[i], now);
    }
    forall i | 0 <= i < |ts|
      ensures Wait(ts[i], now) == m <==> Due(ts[i], now + m)
    {
      WaitsForNext(ts[i], now);
    }
  }

  // ---------------------------------------------------------------- runs

  /** The instant of the `k`th firing. */
  function Instant(ts: seq<Timer>, start: int, k: nat): int
    requires AllDefined(ts)
    decreases k
  {
    if k == 0 then start
    else
      var now := Instant(ts, start, k - 1);
      now + MinWait(ts, now)
  }

  /** The timers that act at the `k`th firing. */
  function ActsAt(ts: seq<Timer>, start: int, k: nat): seq<nat>
    requires AllDefined(ts) && k > 0
  {
    var now := Instant(ts, start, k - 1);
    Selected(ts, now, MinWait(ts, now))
  }

  /** The chain gets as far as `k` firings. */
  ghost predicate RunsFor(ts: seq<Timer>, start: int, k: nat)
    requires AllDefined(ts)
  {
    forall j | 0 <= j < k :: !Halts(ts, Instant(ts, start, j))
  }

  lemma {:induction false} Increasing(ts: seq<Timer>, start: int, j: nat, k: nat)
    requires AllDefined(ts) && RunsFor(ts, start, k) && j <= k
    ensures j < k ==> Instant(ts, start, j) < Instant(ts, start, k)
    ensures Instant(ts, start, j) >= start
    decreases k
  {
    hide MinWait, Wait;
    if j < k {
      Increasing(ts, start, j, k - 1);
      assert !Halts(ts, Instant(ts, start, k - 1));
    } else if k > 0 {
      Increasing(ts, start, k - 1, k - 1);
    }
  }

  /** A timer acts at a firing exactly when it is due at that instant. */
  lemma ActsExactlyWhenDue(ts: seq<Timer>, start: int, k: nat, i: nat)
    requires AllRegular(ts) && AllDefined(ts) && start >= MONDAY && k > 0 && RunsFor(ts, start, k) && i < |ts|
    ensures i in ActsAt(ts, start, k) <==> Due(ts[i], Instant(ts, start, k))
  {
    Increasing(ts, start, k - 1, k - 1);
    SleepIsExact(ts, Instant(ts, start, k - 1));
  }

  /**
   Over any number of firings the instants strictly increase, and no instant at which a
   timer is due is missed: there is a firing at that very instant, and the timer acts in it.
   */
  lemma {:induction false} MissesNothing(ts: seq<Timer>, start: int, n: nat, i: nat, s: int) returns (k: nat)
    requires AllRegular(ts) && AllDefined(ts) && start >= MONDAY && RunsFor(ts, start, n)
    requires i < |ts| && Due(ts[i], s) && start < s <= Instant(ts, start, n)
    ensures 0 < k <= n && Instant(ts, start, k) == s && i in ActsAt(ts, start, k)
    decreases n
  {
    hide MinWait, Wait, Due, Regular, ActsAt;
    if s <= Instant(ts, start, n - 1) {
      k := MissesNothing(ts, start, n - 1, i, s);
    } else {
      Increasing(ts, start, n - 1, n - 1);
      SleepIsExact(ts, Instant(ts, start, n - 1));
      ActsExactlyWhenDue(ts, start, n, i);
      k := n;
    }
  }

  /** Each firing is at least a second after the one before. */
  lemma {:induction false} AtLeastASecond(ts: seq<Timer>, start: int, k: nat)
    requires AllDefined(ts) && RunsFor(ts, start, k)
    ensures Instant(ts, start, k) >= start + k
    decreases k
  {
    hide MinWait, Wait;
    if k > 0 {
      AtLeastASecond(ts, start, k - 1);
      assert !Halts(ts, Instant(ts, start, k - 1));
    }
  }

  /** A list with nothing in it that stops the chain: no unknown entries, and no fixed timer
      whose instant is still to come. */
  predicate Endless(ts: seq<Timer>, start: int) {
    Unknown !in ts && forall i | 0 <= i < |ts| && ts[i].Fixed? :: ts[i].at < start
  }

  lemma {:induction false} NeverStops(ts: seq<Timer>, start: int, k: nat)
    requires AllRegular(ts) && AllDefined(ts) && start >= MONDAY && Endless(ts, start)
    ensures RunsFor(ts, start, k) && !Halts(ts, Instant(ts, start, k))
    decreases k
  {
    hide MinWait, Wait, Regular, Instant;
    if k > 0 {
      NeverStops(ts, start, k - 1);
    }
    AtLeastASecond(ts, start, k);
    HaltsIff(ts, Instant(ts, start, k));
  }

  /** A chain with a fixed timer still to come does not get past its instant: the firing
      that acts on it is the last one, no other timer acts again, and so there are no more
      firings than there are seconds until then. */
  lemma {:induction false} FixedTimerEndsChain(ts: seq<Timer>, start: int, n: nat, s: int)
    requires AllRegular(ts) && AllDefined(ts) && start >= MONDAY && RunsFor(ts, start, n)
    requires Fixed(s) in ts && start <= s
    ensures Instant(ts, start, n) <= s && n <= s - start
    decreases n
  {
    hide MinWait, Wait, Regular, Selected;
    AtLeastASecond(ts, start, n);
    if n > 0 {
      FixedTimerEndsChain(ts, start, n - 1, s);
      Increasing(ts, start, n - 1, n - 1);
      var now := Instant(ts, start, n - 1);
      HaltsIff(ts, now);
      SleepIsExact(ts, now);
      var i :| 0 <= i < |ts| && ts[i] == Fixed(s);
      assert Due(ts[i], s);
    }
  }

  /** Such a list, or one with an unknown entry, has only so many firings. */
  lemma Stops(ts: seq<Timer>, start: int) returns (k: nat)
    requires AllRegular(ts) && AllDefined(ts) && start >= MONDAY && !Endless(ts, start)
    ensures !RunsFor(ts, start, k)
  {
    hide MinWait, Wait, Regular;
    HaltsIff(ts, start);
    assert Instant(ts, start, 0) == start;
    if Unknown in ts {
      k := 1;
    } else {
      var i :| 0 <= i < |ts| && ts[i].Fixed? && ts[i].at >= start;
      assert ts[i] == Fixed(ts[i].at);
      k := ts[i].at - start + 1;
      if RunsFor(ts, start, k) {
        FixedTimerEndsChain(ts, start, k, ts[i].at);
      }
    }
  }

  /** As far as the instants are concerned, and leaving the actions aside, the chain goes on
      for ever exactly when the list has no unknown entry and every fixed timer in it lies
      in the past. */
  lemma GoesOnIff(ts: seq<Timer>, start: int)
    requires AllRegular(ts) && start >= MONDAY
    ensures AllDefined(ts)
    ensures (forall k: nat :: RunsFor(ts, start, k))
      <==> Unknown !in ts && forall i | 0 <= i < |ts| && ts[i].Fixed? :: ts[i].at < start
  {
    RegularDefined(ts);
    hide RunsFor, Regular;
    if Endless(ts, start) {
      forall k: nat
        ensures RunsFor(ts, start, k)
      {
        NeverStops(ts, start, k);
      }
    } else {
      var k := Stops(ts, start);
    }
  }

  // ---------------------------------------------------------------- sleeping in chunks

  const HOUR := 3600

  /** The alarms, in milliseconds, that a wait of `backup` seconds is cut into. */
  function Alarms(backup: nat): (a: seq<nat>)
    decreases backup
  {
    if backup >= HOUR then [HOUR * 1000] + Alarms(backup - HOUR) else [backup * 1000]
  }

  function Sum(a: seq<nat>): nat {
    if a == [] then 0 else a[0] + Sum(a[1..])
  }

  /** They add up to the wait, none is longer than an hour, and there is one for each full
      hour and one for the rest. */
  lemma {:induction false} AlarmsAddUp(backup: nat)
    ensures var a := Alarms(backup);
      && Sum(a) == backup * 1000 && |a| == backup / 3600 + 1
      && forall i | 0 <= i < |a| :: a[i] <= 3600000
  {
    if backup >= HOUR {
      AlarmsAddUp(backup - HOUR);
      var rest := Alarms(backup - HOUR);
      assert ([HOUR * 1000] + rest)[1..] == rest;
    } else {
      assert [backup * 1000][1..] == [];
    }
  }
}
