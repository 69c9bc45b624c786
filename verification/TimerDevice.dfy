/**
 The device that runs a timer list: one operating-system timer with alarms of at most an
 hour, and a switch that the due actions set.
 */
module TimerDevice {
  import opened TimerSchedule
  import opened TimerText

  /** What the operating-system timer is armed with. */
  datatype Alarm = Off | CheckAgain(ms: nat) | ActThen(ms: nat)

  /** What the program knows. */
  datatype Plan = Plan(timestamp: int, min: nat, entries: seq<Entry>, plug: bool, pending: seq<string>)

  /** How it sleeps. `clock` is the physical time in milliseconds; the program does not see it. */
  datatype Sleep = Sleep(alarm: Alarm, backup: nat, clock: nat)

  datatype Device = Device(plan: Plan, sleep: Sleep)

  function Timers(es: seq<Entry>): (ts: seq<Timer>)
    ensures |ts| == |es| && forall i | 0 <= i < |es| :: ts[i] == es[i].timer
  {
    seq(|es|, i requires 0 <= i < |es| => es[i].timer)
  }

  // ---------------------------------------------------------------- the actions

  /** One action on the switch; None for a name that is not known. */
  datatype Effect = Set(plug: bool) | NotKnown

  function Act(plug: bool, action: string): Effect {
    if action == "on_switch" then Set(true)
    else if action == "off_switch" then Set(false)
    else if action == "on_off_switch" then Set(!plug)
    else NotKnown
  }

  /** The switch after a list of actions, and whether the chain goes on. An action that
      starts with the digit 0 ends the list; an unknown one ends the chain. */
  datatype Acted = Acted(plug: bool, goesOn: bool)

  function ActAll(plug: bool, actions: seq<string>): Acted
    decreases |actions|
  {
    if actions == [] || (actions[0] != [] && actions[0][0] == '0') then Acted(plug, true)
    else
      match Act(plug, actions[0])
      case NotKnown => Acted(plug, false)
      case Set(p) => ActAll(p, actions[1..])
  }

  predicate Known(action: string) {
    action == "on_switch" || action == "off_switch" || action == "on_off_switch"
  }

  function ActionsAt(es: seq<Entry>, at: seq<nat>): seq<string>
    requires forall i | 0 <= i < |at| :: at[i] < |es|
  {
    seq(|at|, i requires 0 <= i < |at| => es[at[i]].action)
  }

  /** The action starts with the digit 0. */
  predicate Zero(action: string) {
    action != [] && action[0] == '0'
  }

  /** Before any action of no known name comes one that starts with 0. */
  ghost predicate Harmless(actions: seq<string>) {
    forall i | 0 <= i < |actions| && !Known(actions[i]) :: ZeroWithin(actions, i)
  }

  ghost predicate ZeroWithin(actions: seq<string>, i: nat) {
    exists j :: 0 <= j <= i && j < |actions| && Zero(actions[j])
  }

  /** Whether the chain goes on does not depend on the switch. */
  lemma {:induction false} GoesOnAfterIff(plug: bool, actions: seq<string>)
    ensures ActAll(plug, actions).goesOn <==> Harmless(actions)
    decreases |actions|
  {
    if actions != [] {
      var first, rest := actions[0], actions[1..];
      if Zero(first) {
        assert forall i | 0 <= i < |actions| :: ZeroWithin(actions, i) by {
          assert Zero(actions[0]);
        }
      } else if !Known(first) {
        assert !ZeroWithin(actions, 0);
      } else {
        GoesOnAfterIff(Act(plug, first).plug, rest);
        HarmlessRest(actions);
      }
    }
  }

  lemma HarmlessRest(actions: seq<string>)
    requires actions != [] && !Zero(actions[0]) && Known(actions[0])
    ensures Harmless(actions) <==> Harmless(actions[1..])
  {
    var rest := actions[1..];
    forall i | 0 <= i < |rest|
      ensures ZeroWithin(rest, i) <==> ZeroWithin(actions, i + 1)
    {
      if ZeroWithin(rest, i) {
        var j :| 0 <= j <= i && j < |rest| && Zero(rest[j]);
        assert Zero(actions[j + 1]);
      }
      if ZeroWithin(actions, i + 1) {
        var j :| 0 <= j <= i + 1 && j < |actions| && Zero(actions[j]);
        assert Zero(rest[j - 1]);
      }
    }
    if Harmless(rest) {
      forall i | 0 <= i < |actions| && !Known(actions[i])
        ensures ZeroWithin(actions, i)
      {
        assert !Known(rest[i - 1]);
      }
    }
    if Harmless(actions) {
      forall i | 0 <= i < |rest| && !Known(rest[i])
        ensures ZeroWithin(rest, i)
      {
        assert !Known(actions[i + 1]);
      }
    }
  }

  // ---------------------------------------------------------------- the procedures

  /** `user_esp_platform_wait_time_overflow_check`; the last subtraction wraps. */
  function Check(s: Sleep): Sleep {
    if s.backup >= HOUR then s.(alarm := CheckAgain(HOUR * 1000), backup := s.backup - HOUR)
    else s.(alarm := ActThen(s.backup * 1000), backup := (s.backup + 0x1_0000_0000 - HOUR) % 0x1_0000_0000)
  }

  /** The list has no loop timer with period 0, which the source would divide by. */
  ghost predicate Sane(p: Plan) {
    AllDefined(Timers(p.entries))
  }

  function Shortest(es: seq<Entry>, now: int): nat
    requires AllDefined(Timers(es))
  {
    MinWait(Timers(es), now)
  }

  /** The actions of the timers whose wait is the shortest. */
  function Chosen(es: seq<Entry>, now: int): seq<string>
    requires AllDefined(Timers(es))
  {
    var at := Selected(Timers(es), now, Shortest(es, now));
    assert forall i | 0 <= i < |at| :: at[i] in at;
    ActionsAt(es, at)
  }

  /** `user_platform_timer_first_start` and `esp_platform_timer_action`. */
  function FirstStart(d: Device): Device
    requires Sane(d.plan)
  {
    var p := d.plan;
    var now := p.timestamp + p.min;
    var m := Shortest(p.entries, now);
    if m == 0 then Device(p.(timestamp := now, min := m), d.sleep)
    else Device(p.(timestamp := now, min := m, pending := Chosen(p.entries, now)), Check(d.sleep.(backup := m)))
  }

  /** `user_esp_platform_device_action`. */
  function DeviceAction(d: Device): Device
    requires Sane(d.plan)
  {
    var a := ActAll(d.plan.plug, d.plan.pending);
    var e := Device(d.plan.(plug := a.plug), d.sleep);
    if a.goesOn then FirstStart(e) else e
  }

  /** The operating-system timer, when it is armed, fires. */
  function AlarmFires(d: Device): (r: Device)
    requires Sane(d.plan)
    ensures Sane(r.plan)
  {
    var s := d.sleep;
    match s.alarm
    case Off => d
    case CheckAgain(ms) => Device(d.plan, Check(s.(alarm := Off, clock := s.clock + ms)))
    case ActThen(ms) => DeviceAction(Device(d.plan, s.(alarm := Off, clock := s.clock + ms)))
  }

  function AlarmsFire(d: Device, n: nat): (r: Device)
    requires Sane(d.plan)
    ensures Sane(r.plan)
    decreases n
  {
    if n == 0 then d else AlarmFires(AlarmsFire(d, n - 1))
  }

  // ---------------------------------------------------------------- the chain keeps time

  lemma AlarmsStep(d: Device, n: nat)
    requires Sane(d.plan)
    ensures AlarmsFire(d, 0) == d
    ensures AlarmsFire(d, n + 1) == AlarmFires(AlarmsFire(d, n))
  {
    hide AlarmFires;
  }

  lemma {:induction false} AlarmsAdd(d: Device, m: nat, n: nat)
    requires Sane(d.plan)
    ensures AlarmsFire(AlarmsFire(d, m), n) == AlarmsFire(d, m + n)
    decreases n
  {
    hide AlarmFires, Sane, AlarmsFire;
    AlarmsStep(AlarmsFire(d, m), 0);
    if n > 0 {
      AlarmsAdd(d, m, n - 1);
      AlarmsStep(d, m + n - 1);
      AlarmsStep(AlarmsFire(d, m), n - 1);
    }
  }

  /** Through the full hours nothing happens but the hourly checks. */
  lemma {:induction false} HourlyChecks(p: Plan, s: Sleep, h: nat)
    requires Sane(p) && h <= s.backup / HOUR
    ensures AlarmsFire(Device(p, Check(s)), h)
      == Device(p, Check(s.(backup := s.backup - h * HOUR, clock := s.clock + h * HOUR * 1000)))
    decreases h
  {
    hide Sane, AlarmsFire, DeviceAction;
    AlarmsStep(Device(p, Check(s)), if h == 0 then 0 else h - 1);
    if h > 0 {
      HourlyChecks(p, s, h - 1);
    }
  }

  /** However long the wait is, the actions take place exactly when it is over. */
  lemma ActsAfterWait(p: Plan, s: Sleep) returns (n: nat, b: nat)
    requires Sane(p)
    ensures n == s.backup / HOUR + 1
    ensures AlarmsFire(Device(p, Check(s)), n) == DeviceAction(Device(p, Sleep(Off, b, s.clock + s.backup * 1000)))
  {
    hide Sane, AlarmsFire, DeviceAction, AlarmFires, Check;
    var h := s.backup / HOUR;
    n := h + 1;
    HourlyChecks(p, s, h);
    AlarmsStep(Device(p, Check(s)), h);
    b := LastPart(p, s.(backup := s.backup - h * HOUR, clock := s.clock + h * HOUR * 1000));
  }

  lemma LastPart(p: Plan, s: Sleep) returns (b: nat)
    requires Sane(p) && s.backup < HOUR
    ensures AlarmFires(Device(p, Check(s))) == DeviceAction(Device(p, Sleep(Off, b, s.clock + s.backup * 1000)))
  {
    hide DeviceAction;
    b := Check(s).backup;
  }

  /** The switch after the `k`th firing. */
  function PlugAfter(es: seq<Entry>, start: int, plug: bool, k: nat): bool
    requires AllDefined(Timers(es))
    decreases k
  {
    if k == 0 then plug
    else ActAll(PlugAfter(es, start, plug, k - 1), Chosen(es, Instant(Timers(es), start, k - 1))).plug
  }

  /** The device sleeps for `min` seconds and will then do what is pending, unless there is
      nothing to wait for. */
  ghost predicate SleepsFor(d: Device, pending: seq<string>) {
    && (d.plan.min != 0 ==> d.sleep == Check(Sleep(Off, d.plan.min, d.sleep.clock)) && d.plan.pending == pending)
    && (d.plan.min == 0 ==> d.sleep.alarm == Off)
  }

  /** The device has just made the plan that follows the `k`th firing: its clocks agree, the
      switch is set as the firings so far say, and it sleeps until the next one. */
  ghost predicate Planned(d: Device, es: seq<Entry>, start: int, plug: bool, from: nat, k: nat)
    requires AllDefined(Timers(es))
  {
    var now := Instant(Timers(es), start, k);
    && d.plan.entries == es && d.plan.timestamp == now && d.plan.min == Shortest(es, now)
    && d.plan.plug == PlugAfter(es, start, plug, k)
    && d.sleep.clock == from + 1000 * (now - start)
    && SleepsFor(d, Chosen(es, now))
  }

  lemma StartStep(d: Device)
    requires Sane(d.plan) && d.sleep.alarm == Off
    ensures var r, now := FirstStart(d), d.plan.timestamp + d.plan.min;
      && r.plan.entries == d.plan.entries && r.plan.timestamp == now && r.plan.plug == d.plan.plug
      && r.plan.min == Shortest(d.plan.entries, now) && r.sleep.clock == d.sleep.clock
      && SleepsFor(r, Chosen(d.plan.entries, now))
  {
    hide Shortest, MinWait, Chosen, Timers, AllDefined;
  }

  lemma FiringStep(es: seq<Entry>, start: int, plug: bool, k: nat)
    requires AllDefined(Timers(es))
    ensures var now := Instant(Timers(es), start, k);
      && Instant(Timers(es), start, 0) == start && PlugAfter(es, start, plug, 0) == plug
      && Instant(Timers(es), start, k + 1) == now + Shortest(es, now)
      && PlugAfter(es, start, plug, k + 1) == ActAll(PlugAfter(es, start, plug, k), Chosen(es, now)).plug
  {
    hide MinWait, Chosen, ActAll, Timers, AllDefined;
  }

  lemma NextPlan(d: Device, b: nat, es: seq<Entry>, start: int, plug: bool, from: nat, k: nat)
    requires AllDefined(Timers(es)) && Planned(d, es, start, plug, from, k) && d.plan.min != 0
    requires ActAll(d.plan.plug, d.plan.pending).goesOn
    ensures var e := Device(d.plan, Sleep(Off, b, d.sleep.clock + d.plan.min * 1000));
      Sane(e.plan) && Planned(DeviceAction(e), es, start, plug, from, k + 1)
  {
    hide Shortest, MinWait, Chosen, ActAll, Timers, AllDefined, Instant, PlugAfter, FirstStart, Check;
    FiringStep(es, start, plug, k);
    var a := ActAll(d.plan.plug, d.plan.pending);
    StartStep(Device(d.plan.(plug := a.plug), Sleep(Off, b, d.sleep.clock + d.plan.min * 1000)));
  }

  /**
   From one firing to the next: as many alarms later as the wait has hours begun, the
   device has acted on the timers that were due, and has planned again.
   */
  lemma OneFiring(d: Device, es: seq<Entry>, start: int, plug: bool, from: nat, k: nat) returns (n: nat)
    requires AllDefined(Timers(es)) && Planned(d, es, start, plug, from, k)
    requires !Halts(Timers(es), Instant(Timers(es), start, k)) && HarmlessAt(es, start, k)
    ensures n > 0 && Sane(d.plan) && Planned(AlarmsFire(d, n), es, start, plug, from, k + 1)
  {
    var b;
    hide MinWait, Chosen, ActAll, AlarmsFire, DeviceAction, Check, Instant, PlugAfter, Timers, AllDefined, Harmless;
    GoesOnAfterIff(d.plan.plug, d.plan.pending);
    n, b := ActsAfterWait(d.plan, Sleep(Off, d.plan.min, d.sleep.clock));
    NextPlan(d, b, es, start, plug, from, k);
  }

  /** The actions of the firing after the `k`th do not end the chain. */
  ghost predicate HarmlessAt(es: seq<Entry>, start: int, k: nat)
    requires AllDefined(Timers(es))
  {
    Harmless(Chosen(es, Instant(Timers(es), start, k)))
  }

  /**
   The device follows the schedule: for every firing that the schedule has, as long as
   the actions so far do not end the chain, there is a number of alarms after which the
   device has made exactly the firings up to it, at their instants by the physical
   clock, and set the switch as their actions say.
   */
  lemma {:induction false} FollowsSchedule(d: Device, k: nat) returns (n: nat)
    requires Sane(d.plan) && d.plan.min == 0 && d.sleep.alarm == Off
    requires RunsFor(Timers(d.plan.entries), d.plan.timestamp, k)
    requires forall j | 0 <= j < k :: HarmlessAt(d.plan.entries, d.plan.timestamp, j)
    ensures n >= k && Sane(FirstStart(d).plan)
    ensures Planned(AlarmsFire(FirstStart(d), n), d.plan.entries, d.plan.timestamp, d.plan.plug, d.sleep.clock, k)
    decreases k
  {
    hide FirstStart, AlarmFires, AlarmsFire, MinWait, Instant, Timers, AllDefined, Planned, HarmlessAt;
    FirstPlanned(d);
    AlarmsStep(FirstStart(d), 0);
    n := 0;
    if k > 0 {
      var m := FollowsSchedule(d, k - 1);
      var e := AlarmsFire(FirstStart(d), m);
      var j := OneFiring(e, d.plan.entries, d.plan.timestamp, d.plan.plug, d.sleep.clock, k - 1);
      AlarmsAdd(FirstStart(d), m, j);
      n := m + j;
    }
  }

  lemma FirstPlanned(d: Device)
    requires Sane(d.plan) && d.plan.min == 0 && d.sleep.alarm == Off
    ensures Sane(FirstStart(d).plan)
    ensures Planned(FirstStart(d), d.plan.entries, d.plan.timestamp, d.plan.plug, d.sleep.clock, 0)
  {
    hide Shortest, MinWait, Chosen, Timers, AllDefined, FirstStart, SleepsFor, Instant, PlugAfter;
    StartStep(d);
    FiringStep(d.plan.entries, d.plan.timestamp, d.plan.plug, 0);
  }

  // ---------------------------------------------------------------- when the device goes on

  lemma {:induction false} OffStaysOff(d: Device, n: nat)
    requires Sane(d.plan) && d.sleep.alarm == Off
    ensures AlarmsFire(d, n) == d
  {
    hide Sane;
    if n > 0 {
      OffStaysOff(d, n - 1);
    }
  }

  /** A device that has planned is armed unless there is nothing to wait for. */
  lemma PlannedArmed(d: Device, es: seq<Entry>, start: int, plug: bool, from: nat, k: nat)
    requires AllDefined(Timers(es)) && Planned(d, es, start, plug, from, k)
    ensures d.sleep.alarm == Off <==> Halts(Timers(es), Instant(Timers(es), start, k))
  {
    hide MinWait, Chosen, Instant, PlugAfter, Timers;
  }

  /** An action of no known name, once its turn comes, leaves the device without an alarm. */
  lemma UnknownActionEnds(d: Device, es: seq<Entry>, start: int, plug: bool, from: nat, k: nat) returns (n: nat)
    requires AllDefined(Timers(es)) && Planned(d, es, start, plug, from, k)
    requires !Halts(Timers(es), Instant(Timers(es), start, k)) && !HarmlessAt(es, start, k)
    ensures Sane(d.plan) && AlarmsFire(d, n).sleep.alarm == Off
  {
    var b;
    hide MinWait, Chosen, ActAll, AlarmsFire, FirstStart, Check, Instant, PlugAfter, Timers, AllDefined, Harmless;
    GoesOnAfterIff(d.plan.plug, d.plan.pending);
    n, b := ActsAfterWait(d.plan, Sleep(Off, d.plan.min, d.sleep.clock));
  }

  /** The chain does not get past the `k`th firing. */
  ghost predicate EndsAt(es: seq<Entry>, start: int, k: nat)
    requires AllDefined(Timers(es))
  {
    Halts(Timers(es), Instant(Timers(es), start, k)) || !HarmlessAt(es, start, k)
  }

  lemma FirstEnd(es: seq<Entry>, start: int, k: nat) returns (j: nat)
    requires AllDefined(Timers(es)) && EndsAt(es, start, k)
    ensures j <= k && EndsAt(es, start, j) && forall i | 0 <= i < j :: !EndsAt(es, start, i)
  {
    hide EndsAt, Timers, AllDefined;
    j := 0;
    while !EndsAt(es, start, j)
      invariant j <= k && forall i | 0 <= i < j :: !EndsAt(es, start, i)
      decreases k - j
    {
      j := j + 1;
    }
  }

  lemma BeforeEnd(es: seq<Entry>, start: int, k: nat)
    requires AllDefined(Timers(es)) && forall i | 0 <= i < k :: !EndsAt(es, start, i)
    ensures RunsFor(Timers(es), start, k) && forall i | 0 <= i < k :: HarmlessAt(es, start, i)
  {
    hide Halts, Instant, Timers, HarmlessAt;
    forall i | 0 <= i < k
      ensures !Halts(Timers(es), Instant(Timers(es), start, i)) && HarmlessAt(es, start, i)
    {
      assert !EndsAt(es, start, i);
    }
  }

  lemma GoesOff(d: Device, k: nat) returns (n: nat)
    requires Sane(d.plan) && d.plan.min == 0 && d.sleep.alarm == Off
    requires EndsAt(d.plan.entries, d.plan.timestamp, k)
    ensures Sane(FirstStart(d).plan) && AlarmsFire(FirstStart(d), n).sleep.alarm == Off
  {
    hide FirstStart, AlarmFires, AlarmsFire, Halts, Instant, Timers, AllDefined, Planned, HarmlessAt, RunsFor;
    var es, start, plug, from := d.plan.entries, d.plan.timestamp, d.plan.plug, d.sleep.clock;
    var j := FirstEnd(es, start, k);
    BeforeEnd(es, start, j);
    n := FollowsSchedule(d, j);
    var e := AlarmsFire(FirstStart(d), n);
    PlannedArmed(e, es, start, plug, from, j);
    if e.sleep.alarm != Off {
      var m := UnknownActionEnds(e, es, start, plug, from, j);
      AlarmsAdd(FirstStart(d), n, m);
      n := n + m;
    }
  }

  lemma StaysArmed(d: Device, n: nat)
    requires Sane(d.plan) && d.plan.min == 0 && d.sleep.alarm == Off
    requires forall k: nat :: !EndsAt(d.plan.entries, d.plan.timestamp, k)
    ensures Sane(FirstStart(d).plan) && AlarmsFire(FirstStart(d), n).sleep.alarm != Off
  {
    hide FirstStart, AlarmFires, AlarmsFire, Halts, Instant, Timers, AllDefined, Planned, HarmlessAt, RunsFor;
    var es, start := d.plan.entries, d.plan.timestamp;
    BeforeEnd(es, start, n);
    var m := FollowsSchedule(d, n);
    PlannedArmed(AlarmsFire(FirstStart(d), m), es, start, d.plan.plug, d.sleep.clock, n);
    assert !EndsAt(es, start, n);
    if AlarmsFire(FirstStart(d), n).sleep.alarm == Off {
      AlarmsAdd(FirstStart(d), n, m - n);
      OffStaysOff(AlarmsFire(FirstStart(d), n), m - n);
    }
  }

  /** No planning and no action ever ends the chain. */
  ghost predicate NothingEnds(es: seq<Entry>, start: int)
    requires AllDefined(Timers(es))
  {
    Endless(Timers(es), start) && forall k: nat :: HarmlessAt(es, start, k)
  }

  lemma NeverEndsIff(es: seq<Entry>, start: int)
    requires AllRegular(Timers(es)) && AllDefined(Timers(es)) && start >= MONDAY
    ensures (forall k: nat :: !EndsAt(es, start, k)) <==> NothingEnds(es, start)
  {
    var ts := Timers(es);
    hide HarmlessAt, Timers, AllRegular, AllDefined, Instant, MinWait;
    if Endless(ts, start) {
      forall k: nat
        ensures EndsAt(es, start, k) <==> !HarmlessAt(es, start, k)
      {
        NeverStops(ts, start, k);
      }
    } else {
      var k := Stops(ts, start);
      var j :| 0 <= j < k && Halts(ts, Instant(ts, start, j));
      assert EndsAt(es, start, j);
    }
  }

  /**
   The device has an alarm armed after every number of alarms, so that it goes on for
   ever, exactly when the list has no entry of unknown kind and every fixed timer in it
   lies in the past, and at no firing an action of no known name gets its turn.
   */
  lemma DeviceGoesOnIff(d: Device)
    requires AllRegular(Timers(d.plan.entries)) && d.plan.timestamp >= MONDAY
    requires d.plan.min == 0 && d.sleep.alarm == Off
    ensures Sane(d.plan) && Sane(FirstStart(d).plan)
    ensures (forall n: nat :: AlarmsFire(FirstStart(d), n).sleep.alarm != Off)
      <==> NothingEnds(d.plan.entries, d.plan.timestamp)
  {
    var es, start := d.plan.entries, d.plan.timestamp;
    RegularDefined(Timers(es));
    NeverEndsIff(es, start);
    hide FirstStart, AlarmFires, AlarmsFire, Timers, AllRegular, AllDefined, EndsAt, NothingEnds;
    if forall k: nat :: !EndsAt(es, start, k) {
      forall n: nat
        ensures Sane(FirstStart(d).plan) && AlarmsFire(FirstStart(d), n).sleep.alarm != Off
      {
        StaysArmed(d, n);
      }
    } else {
      var k: nat :| EndsAt(es, start, k);
      var n := GoesOff(d, k);
    }
  }

  // ---------------------------------------------------------------- on the list alone

  predicate Acting(e: Entry) {
    e.timer.Loop? || e.timer.Weekly?
  }

  predicate NoZeros(es: seq<Entry>) {
    forall i | 0 <= i < |es| :: !Zero(es[i].action)
  }

  lemma ChosenAre(es: seq<Entry>, now: int)
    requires AllDefined(Timers(es))
    ensures var c, at := Chosen(es, now), Selected(Timers(es), now, Shortest(es, now));
      && |c| == |at| && forall i | 0 <= i < |at| ::
        at[i] < |es| && c[i] == es[at[i]].action && Wait(es[at[i]].timer, now) == Shortest(es, now)
  {
    hide Wait, MinWait;
    var at := Selected(Timers(es), now, Shortest(es, now));
    assert forall i | 0 <= i < |at| :: at[i] in at;
  }

  lemma OnlyActingChosen(es: seq<Entry>, start: int, now: int)
    requires AllRegular(Timers(es)) && AllDefined(Timers(es)) && Endless(Timers(es), start)
    requires MONDAY <= start <= now && !Halts(Timers(es), now)
    requires forall i | 0 <= i < |es| && Acting(es[i]) :: Known(es[i].action)
    ensures Harmless(Chosen(es, now))
  {
    ChosenAre(es, now);
    hide Known, MinWait, Chosen, Selected;
    var c, at := Chosen(es, now), Selected(Timers(es), now, Shortest(es, now));
    forall i | 0 <= i < |c|
      ensures Known(c[i])
    {
      var e := es[at[i]];
      assert Timers(es)[at[i]] == e.timer && e.timer in Timers(es);
      assert Acting(e);
    }
  }

  lemma UnknownGetsItsTurn(es: seq<Entry>, start: int, i: nat) returns (k: nat)
    requires AllRegular(Timers(es)) && AllDefined(Timers(es)) && Endless(Timers(es), start)
    requires start >= MONDAY && NoZeros(es)
    requires i < |es| && Acting(es[i]) && !Known(es[i].action)
    ensures !HarmlessAt(es, start, k)
  {
    hide Wait, Due, Known, Zero, Endless, MinWait, Instant, HarmlessAt, RunsFor, AllRegular;
    var ts := Timers(es);
    var w := DueLater(ts, start, i);
    NeverStops(ts, start, w);
    AtLeastASecond(ts, start, w);
    var m := MissesNothing(ts, start, w, i, start + w);
    k := m - 1;
    ActsOfChosen(ts, start, k, i);
    Unharmed(es, Instant(ts, start, k), i);
    HarmlessIs(es, start, k);
  }

  lemma HarmlessIs(es: seq<Entry>, start: int, k: nat)
    requires AllDefined(Timers(es))
    ensures HarmlessAt(es, start, k) <==> Harmless(Chosen(es, Instant(Timers(es), start, k)))
  {
  }

  lemma ActsOfChosen(ts: seq<Timer>, start: int, k: nat, i: nat)
    requires AllDefined(ts) && i in ActsAt(ts, start, k + 1)
    ensures var now := Instant(ts, start, k); i in Selected(ts, now, MinWait(ts, now))
  {
  }

  /** A loop or weekly timer is due again. */
  lemma DueLater(ts: seq<Timer>, start: int, i: nat) returns (w: nat)
    requires AllRegular(ts) && start >= MONDAY && i < |ts| && (ts[i].Loop? || ts[i].Weekly?)
    ensures w > 0 && Due(ts[i], start + w)
  {
    match ts[i] {
      case Loop(period) =>
        LoopNext(period, start);
        w := Wait(ts[i], start);
      case Weekly(offset) =>
        WeeklyNextIff(offset, start);
        w := Wait(ts[i], start);
    }
  }

  lemma Unharmed(es: seq<Entry>, now: int, i: nat)
    requires AllDefined(Timers(es)) && NoZeros(es) && i < |es| && !Known(es[i].action)
    requires i in Selected(Timers(es), now, MinWait(Timers(es), now))
    ensures !Harmless(Chosen(es, now))
  {
    ChosenAre(es, now);
    hide Known, MinWait, Chosen, Wait, Zero, Harmless;
    var c, at := Chosen(es, now), Selected(Timers(es), now, Shortest(es, now));
    var j :| 0 <= j < |at| && at[j] == i;
    NotHarmless(c, j);
  }

  lemma NotHarmless(actions: seq<string>, j: nat)
    requires j < |actions| && !Known(actions[j]) && forall x | 0 <= x < |actions| :: !Zero(actions[x])
    ensures !Harmless(actions)
  {
    hide Known, Zero;
    assert !ZeroWithin(actions, j);
  }

  /** On a list without actions that start with 0: nothing ends the chain exactly when it
      is endless and every loop or weekly timer has an action that is known. */
  lemma NothingEndsIff(es: seq<Entry>, start: int)
    requires AllRegular(Timers(es)) && start >= MONDAY && NoZeros(es)
    ensures AllDefined(Timers(es))
    ensures NothingEnds(es, start) <==>
      Endless(Timers(es), start) && forall i | 0 <= i < |es| && Acting(es[i]) :: Known(es[i].action)
  {
    var ts := Timers(es);
    RegularDefined(ts);
    hide Known, Timers, AllRegular, AllDefined, Endless, MinWait, Instant, Chosen, Harmless;
    if Endless(ts, start) {
      if forall i | 0 <= i < |es| && Acting(es[i]) :: Known(es[i].action) {
        forall k: nat
          ensures HarmlessAt(es, start, k)
        {
          NeverStops(ts, start, k);
          AtLeastASecond(ts, start, k);
          OnlyActingChosen(es, start, Instant(ts, start, k));
        }
      } else {
        var i :| 0 <= i < |es| && Acting(es[i]) && !Known(es[i].action);
        var k := UnknownGetsItsTurn(es, start, i);
      }
    }
  }

  /** `l60=blink` makes one firing and then stops. */
  lemma UnknownActionStops(d: Device)
    requires d.plan.entries == [Entry(Loop(60), "blink")] && d.plan.timestamp >= MONDAY
    requires d.plan.min == 0 && d.sleep.alarm == Off
    ensures Sane(FirstStart(d).plan) && exists n: nat :: AlarmsFire(FirstStart(d), n).sleep.alarm == Off
  {
    var es := d.plan.entries;
    assert !Known(es[0].action) && Acting(es[0]) && Timers(es) == [Loop(60)];
    hide AlarmsFire, FirstStart, Known;
    NothingEndsIff(es, d.plan.timestamp);
    DeviceGoesOnIff(d);
  }

  // ---------------------------------------------------------------- what the actions do to the switch

  lemma {:induction false} ActKnownFirst(plug: bool, a: seq<string>, b: seq<string>)
    requires forall i | 0 <= i < |a| :: Known(a[i])
    ensures ActAll(plug, a + b) == ActAll(ActAll(plug, a).plug, b)
    decreases |a|
  {
    if a == [] {
      assert a + b == b;
    } else {
      assert (a + b)[1..] == a[1..] + b;
      match Act(plug, a[0]) {
        case Set(p) => ActKnownFirst(p, a[1..], b);
      }
    }
  }

  lemma {:induction false} TogglesFlip(plug: bool, a: seq<string>)
    requires forall i | 0 <= i < |a| :: a[i] == "on_off_switch"
    ensures ActAll(plug, a).plug == if |a| % 2 == 0 then plug else !plug
    decreases |a|
  {
    if a != [] {
      TogglesFlip(!plug, a[1..]);
    }
  }

  /**
   What a list of known actions makes of the switch: on or off as the last `on_switch` or
   `off_switch` says, or as it was when there is none, and then flipped once for each
   `on_off_switch` behind that. `j` is where these begin.
   */
  lemma SwitchAfterActions(plug: bool, actions: seq<string>, j: nat)
    requires j <= |actions| && forall i | 0 <= i < |actions| :: Known(actions[i])
    requires forall i | j <= i < |actions| :: actions[i] == "on_off_switch"
    requires j > 0 ==> actions[j - 1] == "on_switch" || actions[j - 1] == "off_switch"
    ensures var last := if j == 0 then plug else actions[j - 1] == "on_switch";
      ActAll(plug, actions).plug == if (|actions| - j) % 2 == 0 then last else !last
  {
    var tail := actions[j..];
    assert actions == actions[..j] + tail;
    ActKnownFirst(plug, actions[..j], tail);
    if j > 0 {
      assert actions[..j] == actions[..j - 1] + [actions[j - 1]];
      ActKnownFirst(plug, actions[..j - 1], [actions[j - 1]]);
      OneAction(ActAll(plug, actions[..j - 1]).plug, actions[j - 1]);
    }
    TogglesFlip(ActAll(plug, actions[..j]).plug, tail);
  }

  lemma OneAction(plug: bool, action: string)
    requires action == "on_switch" || action == "off_switch"
    ensures ActAll(plug, [action]).plug == (action == "on_switch")
  {
    assert [action][1..] == [];
  }

  /** Behind an action that starts with 0, and behind one that is not known, nothing is done. */
  lemma {:induction false} NothingBehind(plug: bool, a: seq<string>, last: string, b: seq<string>)
    requires (forall i | 0 <= i < |a| :: Known(a[i])) && !Known(last)
    ensures ActAll(plug, a + [last] + b) == Acted(ActAll(plug, a).plug, Zero(last))
  {
    assert a + [last] + b == a + ([last] + b);
    ActKnownFirst(plug, a, [last] + b);
  }

  lemma {:induction false} IndexBelow(at: seq<nat>, i: nat)
    requires i < |at| && forall x, y | 0 <= x < y < |at| :: at[x] < at[y]
    ensures i <= at[i]
  {
    if i > 0 {
      IndexBelow(at, i - 1);
    }
  }

  lemma AtMostOne(at: seq<nat>)
    requires (forall x | 0 <= x < |at| :: at[x] == 0) && forall x, y | 0 <= x < y < |at| :: at[x] < at[y]
    ensures |at| <= 1
  {
    if at != [] {
      IndexBelow(at, |at| - 1);
    }
  }

  /** A single timer acts at every firing, unless its wait is so long that the device wakes
      up in between. */
  lemma OneTimer(es: seq<Entry>, now: int)
    requires AllDefined(Timers(es)) && |es| == 1
    ensures Chosen(es, now) == [] || Chosen(es, now) == [es[0].action]
    ensures 0 <= Wait(es[0].timer, now) <= FAR ==> Chosen(es, now) == [es[0].action]
  {
    var ts := Timers(es);
    assert ts == [es[0].timer] && ts[..0] == [];
    ChosenAre(es, now);
    var at := Selected(ts, now, Shortest(es, now));
    hide Wait;
    assert forall x | 0 <= x < |at| :: at[x] in at && at[x] == 0;
    AtMostOne(at);
    assert MinWait([], now) == FAR;
    if 0 <= Wait(ts[0], now) <= FAR {
      assert Shortest(es, now) == Wait(ts[0], now);
      assert 0 in at;
    }
  }

  lemma OnlyLoopEndless(es: seq<Entry>, start: int)
    requires |es| == 1 && Acting(es[0])
    ensures Endless(Timers(es), start)
  {
    assert Timers(es) == [es[0].timer];
  }

  /** A single loop timer that is due within reach of the scheduler sets the switch at every
      firing as its action says. */
  lemma {:induction false} SwitchFollowsTimer(d: Device, period: int, k: nat) returns (n: nat)
    requires 0 < period <= FAR && |d.plan.entries| == 1 && d.plan.entries[0].timer == Loop(period)
    requires Known(d.plan.entries[0].action) && k > 0
    requires d.plan.timestamp >= MONDAY && d.plan.min == 0 && d.sleep.alarm == Off
    ensures Sane(FirstStart(d).plan)
    ensures var r, a := AlarmsFire(FirstStart(d), n), d.plan.entries[0].action;
      && r.plan.timestamp == Instant(Timers(d.plan.entries), d.plan.timestamp, k)
      && (a == "on_switch" ==> r.plan.plug)
      && (a == "off_switch" ==> !r.plan.plug)
      && (a == "on_off_switch" ==> r.plan.plug == if k % 2 == 0 then d.plan.plug else !d.plan.plug)
  {
    var es, start, plug := d.plan.entries, d.plan.timestamp, d.plan.plug;
    OnlyRegular(es);
    OnlyLoopEndless(es, start);
    NeverStops(Timers(es), start, k);
    forall j | 0 <= j < k
      ensures HarmlessAt(es, start, j)
    {
      LoopFiring(es, start, plug, period, j);
    }
    LoopFiring(es, start, plug, period, k - 1);
    hide AllRegular, Instant, MinWait, AllDefined, RunsFor, HarmlessAt, Timers, Known;
    hide FirstStart, AlarmsFire, SleepsFor;
    n := FollowsSchedule(d, k);
  }

  lemma OnlyRegular(es: seq<Entry>)
    requires |es| == 1 && Regular(es[0].timer)
    ensures AllRegular(Timers(es)) && AllDefined(Timers(es))
  {
    RegularDefined(Timers(es));
  }

  lemma LoopChosen(es: seq<Entry>, start: int, period: int, j: nat)
    requires AllDefined(Timers(es)) && AllRegular(Timers(es)) && start >= MONDAY && Endless(Timers(es), start)
    requires 0 < period <= FAR && |es| == 1 && es[0].timer == Loop(period)
    ensures Chosen(es, Instant(Timers(es), start, j)) == [es[0].action]
  {
    var now := Instant(Timers(es), start, j);
    NeverStops(Timers(es), start, j);
    AtLeastASecond(Timers(es), start, j);
    hide AllRegular, Instant, MinWait, AllDefined, RunsFor, Timers, Selected, Chosen, Endless;
    LoopNext(period, now);
    OneTimer(es, now);
  }

  lemma KnownAlone(plug: bool, a: string)
    requires Known(a)
    ensures Harmless([a])
    ensures (a == "on_switch" ==> ActAll(plug, [a]).plug) && (a == "off_switch" ==> !ActAll(plug, [a]).plug)
    ensures a == "on_off_switch" ==> ActAll(plug, [a]).plug == !plug
  {
    SwitchAfterActions(plug, [a], if a == "on_off_switch" then 0 else 1);
  }

  lemma {:induction false} LoopFiring(es: seq<Entry>, start: int, plug: bool, period: int, j: nat)
    requires AllDefined(Timers(es)) && AllRegular(Timers(es)) && start >= MONDAY && Endless(Timers(es), start)
    requires 0 < period <= FAR && |es| == 1 && es[0].timer == Loop(period) && Known(es[0].action)
    ensures HarmlessAt(es, start, j)
    ensures var a, p := es[0].action, PlugAfter(es, start, plug, j + 1);
      && (a == "on_switch" ==> p) && (a == "off_switch" ==> !p)
      && (a == "on_off_switch" ==> p == if (j + 1) % 2 == 0 then plug else !plug)
    decreases j
  {
    hide AllRegular, Instant, MinWait, AllDefined, RunsFor, Timers, Chosen, PlugAfter, Endless;
    hide Known, ActAll, Harmless, HarmlessAt;
    LoopChosen(es, start, period, j);
    FiringStep(es, start, plug, j);
    HarmlessIs(es, start, j);
    KnownAlone(PlugAfter(es, start, plug, j), es[0].action);
    if j > 0 {
      LoopFiring(es, start, plug, period, j - 1);
    }
  }
}
