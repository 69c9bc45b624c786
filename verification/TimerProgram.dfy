/** The timer list's globals and procedures. */
module TimerProgram {
  import opened TimerSchedule
  import opened TimerText
  import opened TimerDevice

  function ParseAll(splits: seq<string>): (es: seq<Entry>)
    requires AllReadable(splits)
    ensures |es| == |splits| && forall i | 0 <= i < |es| :: es[i] == ParseEntry(splits[i])
  {
    seq(|splits|, i requires 0 <= i < |splits| => ParseEntry(splits[i]))
  }

  predicate AllReadable(splits: seq<string>) {
    forall i | 0 <= i < |splits| :: Readable(splits[i])
  }

  /** What the procedures need of the list: every entry has its `=`, and no loop timer has
      period 0. */
  ghost predicate Usable(splits: seq<string>) {
    AllReadable(splits) && AllDefined(Timers(ParseAll(splits)))
  }

  class Program {
    var timestamp: int
    var minWaitSecond: nat
    var timerSplits: seq<string>
    var plugStatus: bool
    // struct wait_param
    var action: seq<string>
    var minTimeBackup: nat
    // the operating-system timer, and the physical time
    var deviceTimer: Alarm
    var clock: nat

    ghost predicate Valid()
      reads this
    {
      Usable(timerSplits)
    }

    ghost function PlanNow(): (p: Plan)
      requires Valid()
      reads this
      ensures Sane(p)
    {
      Plan(timestamp, minWaitSecond, ParseAll(timerSplits), plugStatus, action)
    }

    ghost function SleepNow(): Sleep
      reads this
    {
      Sleep(deviceTimer, minTimeBackup, clock)
    }

    ghost function State(): (d: Device)
      requires Valid()
      reads this
      ensures Sane(d.plan)
    {
      Device(PlanNow(), SleepNow())
    }

    /** After `user_platform_timer_start` has read the time and the list. */
    constructor (now: int, list: string)
      requires Usable(Pieces(list, ';'))
      ensures Valid() && timerSplits == Pieces(list, ';') && !plugStatus
      ensures timestamp == now && minWaitSecond == 0 && deviceTimer == Off && clock == 0
    {
      var splits := Split(list, ';');
      timestamp, minWaitSecond, timerSplits, plugStatus := now, 0, splits, false;
      action, minTimeBackup, deviceTimer, clock := [], 0, Off, 0;
    }

    /** `esp_platform_find_min_time`. */
    method FindMinTime(waits: seq<int>, ghost ts: seq<Timer>, ghost now: int)
      requires AllDefined(ts) && |waits| == |ts| && forall i | 0 <= i < |ts| :: waits[i] == Wait(ts[i], now)
      modifies this`minWaitSecond
      ensures minWaitSecond == MinWait(ts, now)
    {
      minWaitSecond := FAR;
      assert ts[..|ts|] == ts;
      for i := 0 to |waits|
        invariant AllDefined(ts[..i]) && minWaitSecond == MinWait(ts[..i], now)
      {
        assert ts[..i + 1][..i] == ts[..i];
        if waits[i] < minWaitSecond && waits[i] >= 0 {
          minWaitSecond := waits[i];
        }
      }
    }

    /** `user_esp_platform_wait_time_overflow_check`. */
    method OverflowCheck()
      modifies this`deviceTimer, this`minTimeBackup
      ensures SleepNow() == Check(old(SleepNow()))
    {
      if minTimeBackup >= HOUR {
        deviceTimer := CheckAgain(3600000);
      } else {
        deviceTimer := ActThen(minTimeBackup * 1000);
      }
      minTimeBackup := if minTimeBackup >= HOUR then minTimeBackup - HOUR
                       else (minTimeBackup + 0x1_0000_0000 - HOUR) % 0x1_0000_0000;
    }

    /** The loop of `esp_platform_timer_action`. */
    method ChooseActions(waits: seq<int>, ghost es: seq<Entry>, actions: seq<string>, ghost now: int)
      requires AllDefined(Timers(es)) && |waits| == |es| == |actions|
      requires forall i | 0 <= i < |es| :: waits[i] == Wait(es[i].timer, now) && actions[i] == es[i].action
      requires minWaitSecond == MinWait(Timers(es), now)
      modifies this`action
      ensures action == Chosen(es, now)
    {
      ghost var ts := Timers(es);
      ghost var at: seq<nat> := [];
      assert ts[..|ts|] == ts;
      action := [];
      for i := 0 to |waits|
        invariant AllDefined(ts[..i]) && at == Selected(ts[..i], now, minWaitSecond)
        invariant (forall j | 0 <= j < |at| :: at[j] < |es|) && action == ActionsAt(es, at)
      {
        SelectedStep(ts, now, minWaitSecond, i);
        if waits[i] == minWaitSecond {
          action := action + [actions[i]];
          at := at + [i];
        }
      }
    }

    /** The loop of `user_platform_timer_first_start`: the wait of every entry. */
    method FindWaits() returns (waits: seq<int>, actions: seq<string>)
      requires Valid()
      ensures var es := ParseAll(timerSplits);
        && |waits| == |es| == |actions|
        && forall i | 0 <= i < |es| :: waits[i] == Wait(es[i].timer, timestamp) && actions[i] == es[i].action
    {
      ghost var es := ParseAll(timerSplits);
      waits, actions := [], [];
      for i := 0 to |timerSplits|
        invariant |waits| == |actions| == i
        invariant forall j | 0 <= j < i :: waits[j] == Wait(es[j].timer, timestamp) && actions[j] == es[j].action
      {
        assert Defined(Timers(es)[i]);
        var str := timerSplits[i];
        if str != [] && str[0] in "flw" {
          var parts := Split(str, '=');
          var n := Atoi(if parts[0] == [] then [] else parts[0][1..]);
          actions := actions + [parts[1]];
          if str[0] == 'f' {
            waits := waits + [n - timestamp];
          } else if str[0] == 'l' {
            waits := waits + [n - Rem(timestamp, n)];
          } else {
            var monday := Rem(timestamp - MONDAY, WEEK);
            waits := waits + [if n > monday then n - monday else WEEK - monday + n];
          }
        } else {
          waits, actions := waits + [0], actions + [[]];
        }
      }
    }

    /** The waits, their minimum, and `pending` unless that is 0. */
    method FindChosen()
      requires Valid()
      modifies this`minWaitSecond, this`action
      ensures Valid() && minWaitSecond == Shortest(ParseAll(timerSplits), timestamp)
      ensures action == if minWaitSecond == 0 then old(action) else Chosen(ParseAll(timerSplits), timestamp)
    {
      hide MinWait, ParseAll, Chosen, Timers, AllDefined;
      ghost var es := ParseAll(timerSplits);
      var waits, actions := FindWaits();
      WaitsOfTimers(es);
      FindMinTime(waits, Timers(es), timestamp);
      if minWaitSecond != 0 {
        ChooseActions(waits, es, actions, timestamp);
      }
    }

    /** `user_platform_timer_first_start`, and `esp_platform_timer_action` at its end. */
    method TimerFirstStart()
      requires Valid()
      modifies this
      ensures Valid() && State() == FirstStart(old(State())) && timerSplits == old(timerSplits)
    {
      hide Shortest, ParseAll, Check, Chosen, Timers, AllDefined, AllReadable;
      timestamp := timestamp + minWaitSecond;
      FindChosen();
      if minWaitSecond != 0 {
        Arm();
      }
    }

    method Arm()
      modifies this`deviceTimer, this`minTimeBackup
      ensures SleepNow() == Check(old(SleepNow()).(backup := minWaitSecond))
    {
      minTimeBackup := minWaitSecond;
      OverflowCheck();
    }

    /** `user_esp_platform_device_action`, in the build for a plug. */
    method ActionCallback()
      requires Valid()
      modifies this
      ensures Valid() && State() == DeviceAction(old(State())) && timerSplits == old(timerSplits)
    {
      hide FirstStart, Usable, ParseAll;
      ghost var a0 := ActAll(plugStatus, action);
      var i := 0;
      assert action[0..] == action;
      while i < |action| && !(action[i] != [] && action[i][0] == '0')
        invariant 0 <= i <= |action| && ActAll(plugStatus, action[i..]) == a0
        invariant unchanged(this`timestamp, this`minWaitSecond, this`timerSplits, this`action, this`minTimeBackup,
                            this`deviceTimer, this`clock)
      {
        assert action[i..][1..] == action[i + 1..];
        if action[i] == "on_switch" {
          plugStatus := true;
        } else if action[i] == "off_switch" {
          plugStatus := false;
        } else if action[i] == "on_off_switch" {
          plugStatus := !plugStatus;
        } else {
          return;
        }
        i := i + 1;
      }
      TimerFirstStart();
    }

    /** The operating-system timer fires. */
    method AlarmCallback()
      requires Valid()
      modifies this
      ensures Valid() && State() == AlarmFires(old(State())) && timerSplits == old(timerSplits)
    {
      hide DeviceAction, Usable, ParseAll, Check;
      var armed := deviceTimer;
      deviceTimer := Off;
      match armed {
        case Off =>
        case CheckAgain(ms) =>
          clock := clock + ms;
          OverflowCheck();
        case ActThen(ms) =>
          clock := clock + ms;
          ActionCallback();
      }
    }
  }

  lemma SelectedStep(ts: seq<Timer>, now: int, m: int, i: nat)
    requires AllDefined(ts) && i < |ts|
    ensures AllDefined(ts[..i]) && AllDefined(ts[..i + 1])
    ensures Selected(ts[..i + 1], now, m) == Selected(ts[..i], now, m) + if Wait(ts[i], now) == m then [i] else []
  {
    assert ts[..i + 1][..i] == ts[..i];
    hide Wait;
  }

  lemma WaitsOfTimers(es: seq<Entry>)
    requires AllDefined(Timers(es))
    ensures forall i | 0 <= i < |es| :: Timers(es)[i] == es[i].timer && Defined(es[i].timer)
  {
    assert forall i | 0 <= i < |es| :: Defined(Timers(es)[i]);
  }
}
