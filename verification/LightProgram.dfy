/** The globals of the light smoothing code and the procedures that change them. */
module LightProgram {
  import opened LightFilter
  import opened LightAdj

  function Zip(now: Duties, cached: Duties, pwm: Duties): Channels {
    seq(5, i requires 0 <= i < 5 => Channel(now[i], cached[i], pwm[i]))
  }

  class Program {
    var currentDuty: Duties
    var dutyNow: Duties
    var cachedDuty: Duties    // light_param.pwm_duty
    var pwmDuty: Duties       // what pwm_get_duty answers
    var cachedPeriod: nat
    var pwmPeriod: nat
    var changeFinish: bool
    var timerArmed: bool
    const evtArr: array<Param>
    var curFreeIdx: nat
    var totalUsed: nat
    var curUseIdx: nat

    function ChannelsNow(): (c: Channels)
      reads this
      ensures forall i | 0 <= i < 5 :: c[i] == Channel(dutyNow[i], cachedDuty[i], pwmDuty[i])
    {
      Zip(dutyNow, cachedDuty, pwmDuty)
    }

    function State(): Light
      reads this, evtArr
    {
      Light(currentDuty, ChannelsNow(), pwmPeriod, cachedPeriod, changeFinish, timerArmed,
            evtArr[..], curFreeIdx, totalUsed, curUseIdx)
    }

    ghost predicate Ok()
      reads this, evtArr
    {
      Valid(State())
    }

    /** The static initialisers, and what `user_light_init` sets up. */
    constructor (saved: Duties, period: nat)
      ensures Ok() && State() == Boot(saved, period)
    {
      currentDuty, dutyNow, cachedDuty, pwmDuty := [0, 0, 0, 0, 0], [0, 0, 0, 0, 0], saved, [0, 0, 0, 0, 0];
      cachedPeriod, pwmPeriod := period, period;
      changeFinish, timerArmed := true, false;
      evtArr := new Param[QNUM](_ => Param(0, [0, 0, 0, 0, 0]));
      curFreeIdx, totalUsed, curUseIdx := 0, 0, 0;
      new;
      assert evtArr[..] == Boot(saved, period).events;
      assert ChannelsNow() == Boot(saved, period).channels;
    }

    /** `check_pwm_current_duty_diff`. */
    method CheckDiff() returns (diff: bool)
      ensures diff <==> !Arrived(ChannelsNow(), currentDuty)
    {
      for i := 0 to CHANNELS
        invariant forall j | 0 <= j < i :: pwmDuty[j] == currentDuty[j]
      {
        if pwmDuty[i] != currentDuty[i] {
          return true;
        }
      }
      return false;
    }

    /** `user_light_set_duty`; `pwm_get_duty` answers what was set. */
    method SetDuty(duty: nat, channel: nat)
      requires channel < CHANNELS
      modifies this`cachedDuty, this`pwmDuty
      ensures if duty != old(cachedDuty)[channel]
        then cachedDuty == old(cachedDuty)[channel := duty] && pwmDuty == old(pwmDuty)[channel := duty]
        else cachedDuty == old(cachedDuty) && pwmDuty == old(pwmDuty)
    {
      if duty != cachedDuty[channel] {
        pwmDuty := pwmDuty[channel := duty];
        cachedDuty := cachedDuty[channel := pwmDuty[channel]];
      }
    }

    /** The loop of `light_dh_pwm_adj_proc`. */
    method Smooth()
      modifies this`dutyNow, this`cachedDuty, this`pwmDuty
      ensures ChannelsNow() == TickAll(old(ChannelsNow()), currentDuty)
    {
      for i := 0 to CHANNELS
        invariant forall j | 0 <= j < i :: ChannelsNow()[j] == ChannelTick(old(ChannelsNow())[j], currentDuty[j])
        invariant forall j | i <= j < 5 :: ChannelsNow()[j] == old(ChannelsNow())[j]
      {
        assert ChannelsNow()[i] == old(ChannelsNow())[i];
        dutyNow := dutyNow[i := ((dutyNow[i] * 15) % U32 + currentDuty[i]) % U32 / 16];
        if AbsMinus(dutyNow[i], currentDuty[i]) < 20 {
          dutyNow := dutyNow[i := currentDuty[i]];
        }
        SetDuty(dutyNow[i], i);
      }
    }

    /** `light_dh_pwm_adj_proc`. */
    method AdjustProc()
      requires Ok()
      modifies this
      ensures Ok() && State() == AdjProc(old(State()))
      decreases totalUsed, 1
    {
      hide TickAll, SmoothAdj, Arrived;
      Smooth();
      var diff := CheckDiff();
      if diff {
        changeFinish := false;
        timerArmed := true;
      } else {
        changeFinish := true;
        timerArmed := false;
        SmoothAdjProc();
      }
    }

    /** `user_light_set_period`. */
    method SetPwmPeriod(period: nat)
      modifies this`cachedPeriod, this`pwmPeriod
      ensures cachedPeriod == period
      ensures pwmPeriod == if period != old(cachedPeriod) then period else old(pwmPeriod)
    {
      if period != cachedPeriod {
        pwmPeriod := period;
        cachedPeriod := pwmPeriod;
      }
    }

    method SaveTargetDuty()
      modifies this`cachedDuty, this`cachedPeriod
      ensures State() == SaveTarget(old(State()))
    {
      cachedDuty := currentDuty;
      cachedPeriod := pwmPeriod;
      assert ChannelsNow() == SaveTarget(old(State())).channels;
    }

    method TakeNextEvent()
      requires Ok() && totalUsed > 0
      modifies this
      ensures Ok() && State() == TakeEvent(old(State()))
    {
      SetPwmPeriod(evtArr[curUseIdx].period);
      currentDuty := evtArr[curUseIdx].duty;
      curUseIdx := curUseIdx + 1;
      if curUseIdx > QNUM - 1 {
        curUseIdx := 0;
      }
      totalUsed := totalUsed - 1;
      assert ChannelsNow() == old(ChannelsNow());
    }

    /** `light_pwm_smooth_adj_proc`. */
    method SmoothAdjProc()
      requires Ok()
      modifies this
      ensures Ok() && State() == SmoothAdj(old(State()))
      decreases totalUsed, 0
    {
      SmoothSteps(State());
      hide TakeEvent, AdjProc, ChannelsNow, SmoothAdj;
      if totalUsed > 0 {
        TakeNextEvent();
        if changeFinish {
          AdjustProc();
        }
      }
      if changeFinish {
        SaveTargetDuty();
      }
    }

    /** `LightEvtMalloc`. */
    method EvtMalloc() returns (slot: int)
      requires Ok()
      modifies this`totalUsed, this`curFreeIdx
      ensures old(totalUsed) + 1 > QNUM ==> slot == -1 && State() == old(State())
      ensures old(totalUsed) + 1 <= QNUM ==> slot == old(curFreeIdx) && totalUsed == old(totalUsed) + 1
      ensures old(totalUsed) + 1 <= QNUM ==>
        curFreeIdx == if old(curFreeIdx) + 1 > QNUM - 1 then 0 else old(curFreeIdx) + 1
      ensures ChannelsNow() == old(ChannelsNow())
    {
      slot := -1;
      totalUsed := totalUsed + 1;
      if totalUsed > QNUM {
        totalUsed := totalUsed - 1;
      } else {
        slot := curFreeIdx;
        curFreeIdx := curFreeIdx + 1;
        if curFreeIdx > QNUM - 1 {
          curFreeIdx := 0;
        }
      }
      assert ChannelsNow() == old(ChannelsNow());
    }

    /** `light_set_aim`. */
    method SetAimDuty(duty: Duties, period: nat)
      requires Ok()
      modifies this, evtArr
      ensures Ok() && State() == SetAim(old(State()), duty, period)
    {
      var slot := EvtMalloc();
      if slot >= 0 {
        evtArr[slot] := Request(duty, period);
        assert State() == AddEvent(old(State()), Request(duty, period)) by {
          hide Request;
          assert evtArr[..] == old(evtArr[..])[slot := Request(duty, period)];
        }
        hide SmoothAdj, AddEvent, Request;
        SmoothAdjProc();
      }
    }

    /** The timer fires. */
    method TimerCallback()
      requires Ok()
      modifies this
      ensures Ok() && State() == Fire(old(State()))
    {
      if timerArmed {
        timerArmed := false;
        assert ChannelsNow() == old(ChannelsNow());
        AdjustProc();
      }
    }
  }
}
