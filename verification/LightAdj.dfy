/**
 Light smoothing: requests go through an event ring, a one-shot timer smooths each
 channel towards the latest request, and the chain of timers ends when every PWM
 channel has the duty that was asked for.
 */
module LightAdj {
  import opened Bytes
  import opened LightFilter

  const CHANNELS := 5
  const QNUM := 40

  type Duties = d: seq<nat> | |d| == 5 witness [0, 0, 0, 0, 0]

  /** `struct pwm_param`. */
  datatype Param = Param(period: nat, duty: Duties)

  /** One channel: `duty_now`, the duty cached by `user_light_set_duty`, and the PWM's. */
  datatype Channel = Channel(now: nat, cached: nat, pwm: nat)

  type Channels = c: seq<Channel> | |c| == 5
    witness [Channel(0, 0, 0), Channel(0, 0, 0), Channel(0, 0, 0), Channel(0, 0, 0), Channel(0, 0, 0)]

  datatype Light = Light(
    current: Duties, channels: Channels, period: nat, cachedPeriod: nat, finish: bool, armed: bool,
    events: seq<Param>, free: nat, used: nat, use: nat)

  // ---------------------------------------------------------------- one channel

  /** `user_light_set_duty`, for the duty that the filter gives. */
  function ChannelTick(c: Channel, target: nat): Channel {
    var x := Filter(c.now, target);
    if x != c.cached then Channel(x, x, x) else c.(now := x)
  }

  function ChannelTicks(c: Channel, target: nat, n: nat): Channel {
    if n == 0 then c else ChannelTick(ChannelTicks(c, target, n - 1), target)
  }

  /** The cache says that the target is set already, and the PWM has another duty. */
  predicate Stuck(c: Channel, target: nat) {
    c.cached == target && Filter(c.now, target) == target && c.pwm != target
  }

  lemma {:induction false} ChannelNow(c: Channel, target: nat, n: nat)
    ensures ChannelTicks(c, target, n).now == Ticks(c.now, target, n)
  {
    if n > 0 {
      ChannelNow(c, target, n - 1);
    }
  }

  lemma {:induction false} StuckForever(c: Channel, target: nat, n: nat)
    requires Stuck(c, target) && target <= MAX_DUTY
    ensures ChannelTicks(c, target, n).pwm != target
    ensures n > 0 ==> ChannelTicks(c, target, n) == c.(now := target)
  {
    FilterShrinks(target, target);
    if n > 0 {
      StuckForever(c, target, n - 1);
    }
  }

  /** From the second tick on, the cache and the PWM agree with the filter, unless the
      channel is stuck. */
  lemma {:induction false} Agrees(c: Channel, target: nat, n: nat)
    requires c.now <= MAX_DUTY && target <= MAX_DUTY && n >= 2 && !Stuck(c, target)
    ensures var d := ChannelTicks(c, target, n); d.pwm == d.now
    ensures var d := ChannelTicks(c, target, n); d.cached == d.now
  {
    var b := ChannelTicks(c, target, n - 1);
    if n == 2 {
      assert ChannelTicks(c, target, 0) == c;
      assert b == ChannelTick(c, target);
      FilterShrinks(c.now, target);
      FilterShrinks(b.now, target);
    } else {
      Agrees(c, target, n - 1);
    }
  }

  /** A channel gets to its target, within 400 ticks, exactly when it is not stuck. */
  lemma ChannelArrivesIff(c: Channel, target: nat, n: nat)
    requires c.now <= MAX_DUTY && target <= MAX_DUTY && n >= 400
    ensures ChannelTicks(c, target, n).pwm == target <==> !Stuck(c, target)
  {
    if Stuck(c, target) {
      StuckForever(c, target, n);
    } else {
      Agrees(c, target, n);
      ChannelNow(c, target, n);
      WithinFourHundredTicks(c.now, target, n);
    }
  }

  // ---------------------------------------------------------------- the procedures

  function TickAll(c: Channels, target: Duties): (d: Channels)
    ensures forall i | 0 <= i < 5 :: d[i] == ChannelTick(c[i], target[i])
  {
    seq(5, i requires 0 <= i < 5 => ChannelTick(c[i], target[i]))
  }

  /** `!check_pwm_current_duty_diff()`. */
  predicate Arrived(c: Channels, target: Duties) {
    forall i | 0 <= i < 5 :: c[i].pwm == target[i]
  }

  /** `light_save_target_duty`. */
  function SaveTarget(l: Light): Light {
    l.(channels := seq(5, i requires 0 <= i < 5 => l.channels[i].(cached := l.current[i])), cachedPeriod := l.period)
  }

  /** `user_light_set_period`. */
  function SetPeriod(l: Light, period: nat): Light {
    if period != l.cachedPeriod then l.(period := period, cachedPeriod := period) else l
  }

  ghost predicate Valid(l: Light) {
    |l.events| == QNUM && l.used <= QNUM && l.use < QNUM && l.free < QNUM
  }

  /** `light_dh_pwm_adj_proc`, which is also the timer's callback. */
  function AdjProc(l: Light): (r: Light)
    requires Valid(l)
    ensures Valid(r)
    decreases l.used, 1
  {
    var t := l.(channels := TickAll(l.channels, l.current));
    if !Arrived(t.channels, t.current) then t.(finish := false, armed := true)
    else SmoothAdj(t.(finish := true, armed := false))
  }

  /** Takes the next event for the target, when there is one. */
  function TakeEvent(l: Light): (r: Light)
    requires Valid(l) && l.used > 0
    ensures Valid(r) && r.used == l.used - 1
  {
    var e := l.events[l.use];
    SetPeriod(l, e.period).(current := e.duty, use := if l.use + 1 > QNUM - 1 then 0 else l.use + 1,
                            used := l.used - 1)
  }

  /** `light_pwm_smooth_adj_proc`. */
  function SmoothAdj(l: Light): (r: Light)
    requires Valid(l)
    ensures Valid(r)
    decreases l.used, 0
  {
    var t :=
      if l.used == 0 then l
      else if l.finish then AdjProc(TakeEvent(l))
      else TakeEvent(l);
    if t.finish then SaveTarget(t) else t
  }

  lemma SmoothSteps(l: Light)
    requires Valid(l)
    ensures l.used == 0 ==> SmoothAdj(l) == if l.finish then SaveTarget(l) else l
    ensures l.used > 0 && !l.finish ==> SmoothAdj(l) == TakeEvent(l)
    ensures l.used > 0 && l.finish ==>
      var t := AdjProc(TakeEvent(l)); SmoothAdj(l) == if t.finish then SaveTarget(t) else t
  {
    hide SaveTarget, AdjProc;
  }

  /** What a request asks for. The limit is computed from the period before the period
      itself is limited, and in 32 bits. */
  function Request(duty: Duties, period: nat): (p: Param)
    ensures forall i | 0 <= i < 5 :: p.duty[i] <= MAX_DUTY
  {
    var limit := (period * 1000) % U32 / 45;
    Param(Min(period, 10000), seq(5, i requires 0 <= i < 5 => Min(duty[i], limit)))
  }

  /** `LightEvtMalloc`, on a ring that is not full. */
  function AddEvent(l: Light, p: Param): Light
    requires Valid(l) && l.used < QNUM
  {
    l.(events := l.events[l.free := p], free := if l.free + 1 > QNUM - 1 then 0 else l.free + 1, used := l.used + 1)
  }

  /** `light_set_aim`. */
  function SetAim(l: Light, duty: Duties, period: nat): (r: Light)
    requires Valid(l)
    ensures Valid(r)
  {
    if l.used + 1 > QNUM then l else SmoothAdj(AddEvent(l, Request(duty, period)))
  }

  // ---------------------------------------------------------------- the timer chain

  /** The timer fires, if it is armed. */
  function Fire(l: Light): (r: Light)
    requires Valid(l)
    ensures Valid(r)
  {
    if l.armed then AdjProc(l.(armed := false)) else l
  }

  function FireAll(l: Light, n: nat): (r: Light)
    requires Valid(l)
    ensures Valid(r)
    decreases n
  {
    if n == 0 then l else FireAll(Fire(l), n - 1)
  }

  function TicksOfAll(c: Channels, target: Duties, n: nat): (d: Channels)
    ensures forall i | 0 <= i < 5 :: d[i] == ChannelTicks(c[i], target[i], n)
  {
    seq(5, i requires 0 <= i < 5 => ChannelTicks(c[i], target[i], n))
  }

  /** In the middle of smoothing. */
  ghost predicate Running(l: Light) {
    Valid(l) && l.used == 0 && !l.finish && l.armed
  }

  /** At rest at the target. */
  ghost predicate Finished(l: Light) {
    Valid(l) && l.used == 0 && l.finish && !l.armed && Arrived(l.channels, l.current)
  }

  lemma AdjEmpty(l: Light)
    requires Valid(l) && l.used == 0
    ensures var t := l.(channels := TickAll(l.channels, l.current));
      AdjProc(l) == if Arrived(t.channels, t.current) then SaveTarget(t.(finish := true, armed := false))
                    else t.(finish := false, armed := true)
  {
    var t := l.(channels := TickAll(l.channels, l.current), finish := true, armed := false);
    assert SmoothAdj(t) == SaveTarget(t);
    hide TickAll, Arrived, SaveTarget, SmoothAdj;
  }

  lemma FireOnce(l: Light)
    requires Running(l)
    ensures var r, c := Fire(l), TickAll(l.channels, l.current);
      && r.current == l.current
      && (Arrived(c, l.current) ==> Finished(r))
      && (!Arrived(c, l.current) ==> Running(r) && r.channels == c)
  {
    hide TickAll, AdjProc;
    AdjEmpty(l.(armed := false));
  }

  lemma {:induction false} RestIsStable(l: Light, n: nat)
    requires Valid(l) && !l.armed
    ensures FireAll(l, n) == l
  {
    if n > 0 {
      RestIsStable(l, n - 1);
    }
  }

  lemma {:induction false} TickFront(c: Channel, target: nat, n: nat)
    ensures ChannelTicks(c, target, n + 1) == ChannelTicks(ChannelTick(c, target), target, n)
  {
    if n == 0 {
      assert ChannelTicks(c, target, 0) == c;
    } else {
      TickFront(c, target, n - 1);
    }
  }

  lemma TickAllFront(c: Channels, target: Duties, n: nat)
    ensures TicksOfAll(c, target, n + 1) == TicksOfAll(TickAll(c, target), target, n)
  {
    forall i | 0 <= i < 5
      ensures TicksOfAll(c, target, n + 1)[i] == TicksOfAll(TickAll(c, target), target, n)[i]
    {
      TickFront(c[i], target[i], n);
    }
  }

  lemma OneTick(c: Channels, target: Duties)
    ensures TicksOfAll(c, target, 1) == TickAll(c, target)
  {
    assert TicksOfAll(c, target, 0) == c;
    TickAllFront(c, target, 0);
    assert TicksOfAll(TickAll(c, target), target, 0) == TickAll(c, target);
  }

  /** The chain has ended by the time at which all the channels have arrived; and while it
      has not ended the channels are where the filter takes them. */
  lemma {:induction false} ChainFollowsFilter(l: Light, n: nat) returns (m: nat)
    requires Running(l)
    ensures var r := FireAll(l, n);
      && r.current == l.current
      && (Finished(r) || (Running(r) && r.channels == TicksOfAll(l.channels, l.current, n)))
      && (n > 0 && Running(r) ==> !Arrived(r.channels, l.current))
      && (Finished(r) ==> Arrived(TicksOfAll(l.channels, l.current, m), l.current))
    decreases n
  {
    m := 0;
    FireAllFront(l, n);
    NoTicks(l.channels, l.current);
    RunningNotFinished(l);
    if n > 0 {
      var c, r := TickAll(l.channels, l.current), Fire(l);
      FireOnce(l);
      TickAllFront(l.channels, l.current, n - 1);
      OneTick(l.channels, l.current);
      hide Fire, FireAll, TicksOfAll, TickAll, Arrived, Running, Finished;
      if Arrived(c, l.current) {
        RunningNotFinished(r);
        FinishedRests(r, n - 1);
        m := 1;
      } else {
        FireAllFront(r, 0);
        m := ChainFollowsFilter(r, n - 1);
        TickAllFront(l.channels, l.current, m);
        m := m + 1;
      }
    }
  }

  lemma FireAllFront(l: Light, n: nat)
    requires Valid(l)
    ensures FireAll(l, 0) == l && (n > 0 ==> FireAll(l, n) == FireAll(Fire(l), n - 1))
  {
    hide Fire;
  }

  lemma NoTicks(c: Channels, target: Duties)
    ensures TicksOfAll(c, target, 0) == c
  {
  }

  lemma RunningNotFinished(l: Light)
    ensures !(Running(l) && Finished(l)) && (Running(l) || Finished(l) ==> Valid(l))
  {
  }

  lemma FinishedRests(l: Light, n: nat)
    requires Finished(l)
    ensures FireAll(l, n) == l
  {
    RestIsStable(l, n);
  }

  ghost predicate AllSmall(l: Light) {
    forall i | 0 <= i < 5 :: l.channels[i].now <= MAX_DUTY && l.current[i] <= MAX_DUTY
  }

  ghost predicate NoneStuck(l: Light) {
    forall i | 0 <= i < 5 :: !Stuck(l.channels[i], l.current[i])
  }

  /** The chain of timers ends, and then after at most 400 timers and with every PWM
      channel at its target, exactly when no channel is stuck when it starts. */
  lemma ChainEndsIff(l: Light, n: nat)
    requires Running(l) && AllSmall(l) && n >= 400
    ensures Finished(FireAll(l, n)) <==> NoneStuck(l)
    ensures !NoneStuck(l) ==> Running(FireAll(l, n))
  {
    var m := ChainFollowsFilter(l, n);
    var d := TicksOfAll(l.channels, l.current, n);
    forall i | 0 <= i < 5
      ensures d[i].pwm == l.current[i] <==> !Stuck(l.channels[i], l.current[i])
      ensures Stuck(l.channels[i], l.current[i]) ==> TicksOfAll(l.channels, l.current, m)[i].pwm != l.current[i]
    {
      ChannelArrivesIff(l.channels[i], l.current[i], n);
      if Stuck(l.channels[i], l.current[i]) {
        StuckForever(l.channels[i], l.current[i], m);
      }
    }
    assert Arrived(d, l.current) <==> NoneStuck(l);
    hide FireAll, TicksOfAll, Stuck;
  }

  // ---------------------------------------------------------------- runs of requests and timers

  datatype Happening = Aim(duty: Duties, period: nat) | TimerFires

  function Happen(l: Light, h: Happening): (r: Light)
    requires Valid(l)
    ensures Valid(r)
  {
    match h
    case Aim(duty, period) => SetAim(l, duty, period)
    case TimerFires => Fire(l)
  }

  function Run(l: Light, hs: seq<Happening>): (r: Light)
    requires Valid(l)
    ensures Valid(r)
  {
    if hs == [] then l else Happen(Run(l, hs[..|hs| - 1]), hs[|hs| - 1])
  }

  /** The duties of the latest request, within the limits. */
  function Wanted(start: Duties, hs: seq<Happening>): Duties {
    if hs == [] then start
    else
      match hs[|hs| - 1]
      case Aim(duty, period) => Request(duty, period).duty
      case TimerFires => Wanted(start, hs[..|hs| - 1])
  }

  ghost predicate CacheAgrees(l: Light) {
    forall i | 0 <= i < 5 :: l.channels[i].cached == l.channels[i].pwm
  }

  /** Between two happenings: the ring is empty, and either the target is reached and no
      timer is armed, or a timer is. */
  ghost predicate Tidy(l: Light) {
    && Valid(l) && l.used == 0 && l.free == l.use && AllSmall(l)
    && (Finished(l) || Running(l))
  }

  /** And the cache is right as well. */
  ghost predicate Orderly(l: Light) {
    Tidy(l) && CacheAgrees(l)
  }

  lemma TickKeepsSmall(l: Light)
    requires AllSmall(l)
    ensures var t := l.(channels := TickAll(l.channels, l.current));
      AllSmall(t) && (CacheAgrees(l) ==> CacheAgrees(t))
  {
    forall i | 0 <= i < 5
      ensures Filter(l.channels[i].now, l.current[i]) <= MAX_DUTY
    {
      FilterShrinks(l.channels[i].now, l.current[i]);
    }
  }

  /** At rest, saving the target makes the cache right. */
  lemma SaveKeeps(l: Light)
    requires Valid(l) && l.used == 0 && l.free == l.use && AllSmall(l) && Finished(l)
    ensures Orderly(SaveTarget(l)) && SaveTarget(l).current == l.current
  {
  }

  /** One round of smoothing keeps things tidy; whether a timer was armed does not matter. */
  lemma AdjKeeps(l: Light)
    requires Valid(l) && l.used == 0 && l.free == l.use && AllSmall(l)
    ensures Tidy(AdjProc(l)) && AdjProc(l).current == l.current
    ensures CacheAgrees(l) || AdjProc(l).finish ==> CacheAgrees(AdjProc(l))
  {
    AdjEmpty(l);
    TickKeepsSmall(l);
    hide AdjProc, TickAll, AllSmall, CacheAgrees, Arrived;
    var t := l.(channels := TickAll(l.channels, l.current));
    if Arrived(t.channels, t.current) {
      var u := t.(finish := true, armed := false);
      SmallAnyFlags(t, u);
      SaveKeeps(u);
    } else {
      SmallAnyFlags(t, t.(finish := false, armed := true));
    }
  }

  lemma SmallAnyFlags(l: Light, m: Light)
    requires l.channels == m.channels && l.current == m.current
    ensures AllSmall(l) == AllSmall(m) && CacheAgrees(l) == CacheAgrees(m)
  {
  }

  lemma FireKeeps(l: Light)
    requires Tidy(l)
    ensures Tidy(Fire(l)) && Fire(l).current == l.current
    ensures CacheAgrees(l) ==> CacheAgrees(Fire(l))
  {
    hide AdjProc, TickAll, AllSmall, CacheAgrees, Arrived;
    SmallAnyFlags(l, l.(armed := false));
    if l.armed {
      AdjKeeps(l.(armed := false));
    }
  }

  /** A request is taken out of the ring again at once, and it is the new target. */
  lemma RequestTaken(l: Light, p: Param)
    requires Valid(l) && l.used == 0 && l.free == l.use && AllSmall(l)
    requires forall i | 0 <= i < 5 :: p.duty[i] <= MAX_DUTY
    ensures var t := TakeEvent(AddEvent(l, p));
      && Valid(t) && t.used == 0 && t.free == t.use && AllSmall(t) && (CacheAgrees(l) ==> CacheAgrees(t))
      && t.current == p.duty && t.channels == l.channels && t.finish == l.finish && t.armed == l.armed
  {
  }

  /** A request while the light is at rest or being smoothed; at start-up nothing is known
      of the cache. */
  lemma AimKeeps(l: Light, duty: Duties, period: nat)
    requires Valid(l) && l.used == 0 && l.free == l.use && AllSmall(l) && (l.finish || Running(l))
    ensures var r := SetAim(l, duty, period);
      && Tidy(r) && r.current == Request(duty, period).duty
      && (CacheAgrees(l) ==> CacheAgrees(r))
  {
    var p := Request(duty, period);
    var a := AddEvent(l, p);
    var t := TakeEvent(a);
    RequestTaken(l, p);
    SmoothSteps(a);
    hide SmoothAdj, AdjProc, TickAll, AllSmall, CacheAgrees, Arrived, Request, AddEvent, TakeEvent, SaveTarget;
    if l.finish {
      AdjKeeps(t);
      TidyParts(AdjProc(t));
      if AdjProc(t).finish {
        SaveKeeps(AdjProc(t));
      }
    }
  }

  lemma TidyParts(l: Light)
    requires Tidy(l)
    ensures AllSmall(l) && (l.finish ==> Finished(l)) && (l.finish || Running(l))
  {
  }

  /** In every run of requests and timers the ring is empty after each request, so that no
      request is ever refused, and the target is the latest request. */
  lemma {:induction false} LatestRequestIsTarget(l: Light, hs: seq<Happening>)
    requires Tidy(l)
    ensures Tidy(Run(l, hs)) && Run(l, hs).current == Wanted(l.current, hs)
    ensures CacheAgrees(l) ==> CacheAgrees(Run(l, hs))
  {
    if hs != [] {
      var n := |hs| - 1;
      LatestRequestIsTarget(l, hs[..n]);
      var r := Run(l, hs[..n]);
      TidyParts(r);
      hide CacheAgrees, AllSmall, Running, Finished, SetAim, Fire, Request;
      match hs[n] {
        case Aim(duty, period) => AimKeeps(r, duty, period);
        case TimerFires => FireKeeps(r);
      }
    }
  }

  lemma CacheNeverStuck(l: Light)
    requires CacheAgrees(l) || Finished(l)
    ensures NoneStuck(l)
  {
  }

  /** After any run, 400 timers without a new request bring every PWM channel to the duty
      of the latest request, and end the chain, exactly when no channel is stuck by then;
      and none ever is when the cache was right at first. */
  lemma ReachesLatestRequest(l: Light, hs: seq<Happening>, n: nat)
    requires Tidy(l) && n >= 400
    ensures var s := Run(l, hs); var r := FireAll(s, n);
      && (Finished(r) && Arrived(r.channels, Wanted(l.current, hs)) <==> NoneStuck(s))
      && (CacheAgrees(l) ==> NoneStuck(s))
  {
    LatestRequestIsTarget(l, hs);
    var s := Run(l, hs);
    hide Run, Wanted, AllSmall, CacheAgrees, Arrived, FireAll, NoneStuck;
    if CacheAgrees(s) || Finished(s) {
      CacheNeverStuck(s);
    }
    if s.armed {
      ChainEndsIff(s, n);
      var m := ChainFollowsFilter(s, n);
    } else {
      RestIsStable(s, n);
    }
  }

  // ---------------------------------------------------------------- at start-up

  /** After `user_light_init` has read the saved duties into the cache and initialised the
      PWM with zeros. */
  function Boot(saved: Duties, period: nat): Light {
    Light([0, 0, 0, 0, 0], seq(5, i requires 0 <= i < 5 => Channel(0, saved[i], 0)), period, period, true, false,
          seq(QNUM, _ => Param(0, [0, 0, 0, 0, 0])), 0, 0, 0)
  }

  lemma BootChannel(d: nat, limit: nat)
    requires 22222 <= limit <= MAX_DUTY
    ensures var t := Min(d, limit);
      Stuck(ChannelTick(Channel(0, d, 0), t), t) <==> 0 < d <= 20
  {
    var t := Min(d, limit);
    var x := Filter(0, t);
    FilterShrinks(0, t);
    FilterShrinks(x, t);
    assert x == t <==> t <= 20;
  }

  /** Restoring the saved duties when the device starts ends exactly when no saved duty is
      between 1 and 20: such a channel stays dark, and the timer fires for ever. */
  lemma BootEndsIff(saved: Duties, period: nat, n: nat)
    requires 1000 <= period <= 10000 && n >= 400
    ensures Finished(FireAll(SetAim(Boot(saved, period), saved, period), n))
      <==> forall i | 0 <= i < 5 :: !(0 < saved[i] <= 20)
  {
    var b, p := Boot(saved, period), Request(saved, period);
    var a := AddEvent(b, p);
    var t := TakeEvent(a);
    var c := TickAll(t.channels, p.duty);
    var limit := (period * 1000) % U32 / 45;
    assert 22222 <= limit <= MAX_DUTY;
    forall i | 0 <= i < 5
      ensures Stuck(c[i], p.duty[i]) <==> 0 < saved[i] <= 20
      ensures c[i].now <= MAX_DUTY
      ensures c[i].pwm == p.duty[i] ==> !(0 < saved[i] <= 20)
    {
      BootChannel(saved[i], limit);
      FilterShrinks(0, p.duty[i]);
    }
    AdjEmpty(t);
    BootAdj(a, t);
    hide AdjProc, SmoothAdj, TickAll, AddEvent, TakeEvent, Request, Stuck, Filter, Boot;
    if Arrived(c, p.duty) {
      hide FireAll;
      RestIsStable(SetAim(b, saved, period), n);
    } else {
      hide FireAll;
      ChainEndsIff(SetAim(b, saved, period), n);
    }
  }

  /** However the device starts, the first request makes things tidy: what holds of every
      run from a tidy state holds of every run of the device. */
  lemma BootTidy(saved: Duties, period: nat)
    ensures var s := SetAim(Boot(saved, period), saved, period);
      Tidy(s) && s.current == Request(saved, period).duty
  {
    AimKeeps(Boot(saved, period), saved, period);
  }

  /** When no saved duty is between 1 and 20, it makes the cache right, too. */
  lemma BootOrderly(saved: Duties, period: nat)
    requires 1000 <= period <= 10000 && forall i | 0 <= i < 5 :: !(0 < saved[i] <= 20)
    ensures Orderly(SetAim(Boot(saved, period), saved, period))
  {
    var b, p := Boot(saved, period), Request(saved, period);
    var a := AddEvent(b, p);
    var t := TakeEvent(a);
    var c := TickAll(t.channels, p.duty);
    var limit := (period * 1000) % U32 / 45;
    assert 22222 <= limit <= MAX_DUTY;
    forall i | 0 <= i < 5
      ensures c[i].cached == c[i].pwm
    {
      BootChannelAgrees(saved[i], limit);
    }
    BootTidy(saved, period);
    AdjEmpty(t);
    BootAdj(a, t);
    hide AdjProc, SmoothAdj, TickAll, AddEvent, TakeEvent, Request, Boot, Filter, Tidy;
  }

  lemma BootChannelAgrees(d: nat, limit: nat)
    requires 22222 <= limit <= MAX_DUTY && !(0 < d <= 20)
    ensures var c := ChannelTick(Channel(0, d, 0), Min(d, limit)); c.cached == c.pwm
  {
    FilterShrinks(0, Min(d, limit));
  }

  // ---------------------------------------------------------------- every run of the device

  predicate Agrees1(c: Channel) {
    c.cached == c.pwm
  }

  /** A dark channel: the filter and the cache are at its saved duty, and the PWM is off. */
  predicate Dark(c: Channel, d: nat) {
    c == Channel(d, d, 0) && 0 < d <= 20
  }

  /** At rest the cache is right. */
  ghost predicate Settled(l: Light) {
    Tidy(l) && (l.finish ==> CacheAgrees(l))
  }

  lemma SettledParts(l: Light, i: nat)
    requires Settled(l) && i < 5
    ensures Valid(l) && l.used == 0 && l.free == l.use && AllSmall(l) && l.current[i] <= MAX_DUTY
    ensures (l.finish || Running(l)) && (l.finish ==> Agrees1(l.channels[i]) && !l.armed)
  {
  }

  lemma AdjChannel(l: Light, i: nat)
    requires Valid(l) && l.used == 0 && i < 5
    ensures var r, c := AdjProc(l), ChannelTick(l.channels[i], l.current[i]);
      (!r.finish && r.channels[i] == c)
      || (r.finish && c.pwm == l.current[i] && r.channels[i] == c.(cached := l.current[i]))
  {
    AdjEmpty(l);
    hide AdjProc, ChannelTick;
  }

  /** A tick keeps a channel's cache right. It leaves a dark channel dark when the target is
      its saved duty, and makes its cache right otherwise. */
  lemma TickChannel(c: Channel, target: nat, d: nat)
    requires target <= MAX_DUTY
    ensures var r := ChannelTick(c, target);
      && (Agrees1(c) ==> Agrees1(r))
      && (Dark(c, d) ==> if target == d then r == c else Agrees1(r))
  {
    if Dark(c, d) {
      FilterShrinks(d, target);
    }
  }

  lemma HappenChannel(l: Light, h: Happening, i: nat, d: nat)
    requires Settled(l) && i < 5
    ensures var r := Happen(l, h);
      && Settled(r)
      && (Agrees1(l.channels[i]) ==> Agrees1(r.channels[i]))
      && (Dark(l.channels[i], d) ==>
            if h.TimerFires? && l.current[i] != d then Agrees1(r.channels[i]) else r.channels[i] == l.channels[i])
  {
    SettledParts(l, i);
    TickChannel(l.channels[i], l.current[i], d);
    match h
    case TimerFires =>
      FireKeepsSettled(l);
      hide AdjProc, ChannelTick, Settled, Agrees1;
      if l.armed {
        AdjChannel(l.(armed := false), i);
        AfterAdj(l.channels[i], l.current[i], d);
      }
    case Aim(duty, period) =>
      AimChannel(l, duty, period, i);
      hide SetAim, Settled;
  }

  /** What the two outcomes of a round leave of a channel. */
  lemma AfterAdj(c: Channel, target: nat, d: nat)
    requires target <= MAX_DUTY
    ensures var r := ChannelTick(c, target);
      && (r.pwm == target ==> Agrees1(r.(cached := target)) && !(Dark(c, d) && target == d))
      && (Dark(c, d) && target == d ==> r == c)
      && (Dark(c, d) && target != d ==> Agrees1(r))
      && (Agrees1(c) ==> Agrees1(r))
  {
    TickChannel(c, target, d);
  }

  lemma FireKeepsSettled(l: Light)
    requires Settled(l)
    ensures Settled(Fire(l))
  {
    FireKeeps(l);
    hide AdjProc, AllSmall, CacheAgrees;
    if l.armed {
      TidyParts(l);
      SmallAnyFlags(l, l.(armed := false));
      AdjKeeps(l.(armed := false));
    }
  }

  lemma AimChannel(l: Light, duty: Duties, period: nat, i: nat)
    requires Settled(l) && i < 5
    ensures var r := SetAim(l, duty, period);
      && Settled(r) && (l.finish ==> Agrees1(r.channels[i])) && (!l.finish ==> r.channels == l.channels)
  {
    var p := Request(duty, period);
    TidyParts(l);
    AimKeeps(l, duty, period);
    RequestTaken(l, p);
    SmoothSteps(AddEvent(l, p));
    hide SmoothAdj, AdjProc, TickAll, AllSmall, Arrived, Request, AddEvent, TakeEvent, SaveTarget;
  }

  /** The channel's target was its saved duty whenever a timer fired. */
  predicate Untouched(start: Duties, hs: seq<Happening>, i: nat, d: nat)
    requires i < 5
  {
    forall k | 0 <= k < |hs| && hs[k].TimerFires? :: Wanted(start, hs[..k])[i] == d
  }

  lemma UntouchedStep(start: Duties, hs: seq<Happening>, i: nat, d: nat)
    requires i < 5 && hs != []
    ensures var n := |hs| - 1;
      Untouched(start, hs, i, d) <==>
        Untouched(start, hs[..n], i, d) && (hs[n].TimerFires? ==> Wanted(start, hs[..n])[i] == d)
  {
    var n := |hs| - 1;
    assert forall k | 0 <= k < n :: hs[..n][..k] == hs[..k] && hs[..n][k] == hs[k];
    hide Wanted;
  }

  /** A channel that starts dark stays so just as long as it is untouched; then, and if it
      does not start dark, its cache is right. */
  lemma {:induction false} ChannelHistory(l: Light, hs: seq<Happening>, i: nat, d: nat)
    requires Settled(l) && i < 5 && (Dark(l.channels[i], d) || Agrees1(l.channels[i]))
    ensures var s := Run(l, hs);
      && Settled(s) && s.current == Wanted(l.current, hs)
      && if Dark(l.channels[i], d) && Untouched(l.current, hs, i, d) then Dark(s.channels[i], d)
         else Agrees1(s.channels[i])
  {
    hide Settled, Agrees1, Dark, Wanted, Happen, Untouched;
    SettledParts(l, i);
    NoHappening(l, i, d);
    if hs != [] {
      var n := |hs| - 1;
      ChannelHistory(l, hs[..n], i, d);
      var s := Run(l, hs[..n]);
      SettledTarget(l, hs);
      UntouchedStep(l.current, hs, i, d);
      HappenChannel(s, hs[n], i, d);
    }
  }

  lemma NoHappening(l: Light, i: nat, d: nat)
    requires i < 5
    ensures Untouched(l.current, [], i, d) && Wanted(l.current, []) == l.current
  {
  }

  lemma SettledTarget(l: Light, hs: seq<Happening>)
    requires Settled(l)
    ensures Run(l, hs).current == Wanted(l.current, hs)
  {
    LatestRequestIsTarget(l, hs);
  }

  /** After start-up a channel is dark when its saved duty was between 1 and 20, and has
      the right cache otherwise. */
  lemma BootSettled(saved: Duties, period: nat)
    requires 1000 <= period <= 10000
    ensures var s := SetAim(Boot(saved, period), saved, period);
      && Settled(s) && s.current == Request(saved, period).duty
      && forall i | 0 <= i < 5 ::
        if 0 < saved[i] <= 20 then Dark(s.channels[i], saved[i]) && s.current[i] == saved[i]
        else Agrees1(s.channels[i])
  {
    var b, p := Boot(saved, period), Request(saved, period);
    var a := AddEvent(b, p);
    var t := TakeEvent(a);
    var limit := (period * 1000) % U32 / 45;
    assert 22222 <= limit <= MAX_DUTY;
    BootTidy(saved, period);
    BootAdj(a, t);
    forall i | 0 <= i < 5
      ensures var c := ChannelTick(t.channels[i], t.current[i]);
        if 0 < saved[i] <= 20 then Dark(c, saved[i]) && t.current[i] == saved[i] else Agrees1(c)
    {
      BootDark(saved[i], limit);
      if !(0 < saved[i] <= 20) {
        BootChannelAgrees(saved[i], limit);
      }
    }
    AdjEmpty(t);
    hide AdjProc, SmoothAdj, AddEvent, TakeEvent, Request, Boot, Filter, Tidy, ChannelTick;
  }

  lemma BootDark(d: nat, limit: nat)
    requires 22222 <= limit <= MAX_DUTY
    ensures 0 < d <= 20 ==> Min(d, limit) == d && ChannelTick(Channel(0, d, 0), d) == Channel(d, d, 0)
  {
  }

  /**
   Every run of the device, from start-up with any saved duties on; the saved period is
   brought into its range when it is read. No request is refused and the target is the
   latest request. 400 timers later the light is there and the timers have stopped,
   unless a channel stays dark: its saved duty is between 1 and 20, and that is what it
   was asked for whenever a timer fired, and is asked for now.
   */
  lemma DeviceReachesLatestRequestIff(saved: Duties, period: nat, hs: seq<Happening>, n: nat)
    requires n >= 400 && 1000 <= period <= 10000
    ensures var start := Request(saved, period).duty;
      var l := SetAim(Boot(saved, period), saved, period);
      var r := FireAll(Run(l, hs), n);
      && Run(l, hs).used == 0 && Run(l, hs).current == Wanted(start, hs)
      && (Finished(r) && Arrived(r.channels, Wanted(start, hs))
          <==> forall i | 0 <= i < 5 :: !(0 < saved[i] <= 20 && Untouched(start, hs, i, saved[i])
                                          && Wanted(start, hs)[i] == saved[i]))
  {
    var l := SetAim(Boot(saved, period), saved, period);
    BootSettled(saved, period);
    var s := Run(l, hs);
    forall i | 0 <= i < 5
      ensures Stuck(s.channels[i], s.current[i]) <==>
        0 < saved[i] <= 20 && Untouched(l.current, hs, i, saved[i]) && Wanted(l.current, hs)[i] == saved[i]
    {
      ChannelHistory(l, hs, i, saved[i]);
      StuckIffDark(s.channels[i], s.current[i], saved[i]);
      if !(0 < saved[i] <= 20) {
        NotDark(l.channels[i], saved[i]);
      }
    }
    LatestRequestIsTarget(l, hs);
    ReachesLatestRequest(l, hs, n);
    hide SetAim, Boot, Request, Run, Wanted, Finished, Arrived, FireAll, CacheAgrees, AllSmall, Stuck, Untouched;
  }

  lemma StuckIffDark(c: Channel, target: nat, d: nat)
    requires target <= MAX_DUTY
    ensures Dark(c, d) ==> (Stuck(c, target) <==> target == d)
    ensures Agrees1(c) ==> !Stuck(c, target)
  {
    if Dark(c, d) {
      FilterShrinks(d, target);
    }
  }

  lemma NotDark(c: Channel, d: nat)
    requires !(0 < d <= 20)
    ensures !Dark(c, d)
  {
  }

  // ---------------------------------------------------------------- what a request asks for

  /** A request's duties are the ones asked for, cut down to 1000 / 45 of its period; 1000
      times the period is taken in 32 bits. */
  lemma RequestLimits(duty: Duties, period: nat, i: nat)
    requires i < 5
    ensures var r, top := Request(duty, period).duty[i], 1000 * period % 0x1_0000_0000;
      r <= duty[i] && 45 * r <= top && (r < duty[i] ==> 45 * (r + 1) > top)
  {
    var top := (period * 1000) % U32;
    assert 45 * (top / 45) <= top < 45 * (top / 45 + 1);
  }

  /** The PWM and its cache have the same period. */
  predicate PeriodAgrees(l: Light) {
    l.period == l.cachedPeriod
  }

  /** The period of the latest request, but at most 10000. */
  function WantedPeriod(start: nat, hs: seq<Happening>): nat {
    if hs == [] then start
    else
      match hs[|hs| - 1]
      case Aim(_, period) => if period > 10000 then 10000 else period
      case TimerFires => WantedPeriod(start, hs[..|hs| - 1])
  }

  lemma AdjPeriod(l: Light)
    requires Valid(l) && l.used == 0 && PeriodAgrees(l)
    ensures AdjProc(l).period == l.period && PeriodAgrees(AdjProc(l))
  {
    AdjEmpty(l);
    hide AdjProc, TickAll, Arrived;
  }

  lemma HappenPeriod(l: Light, h: Happening)
    requires Valid(l) && l.used == 0 && l.free == l.use && PeriodAgrees(l)
    ensures var r := Happen(l, h);
      && PeriodAgrees(r)
      && r.period == match h case Aim(_, period) => (if period > 10000 then 10000 else period)
                             case TimerFires => l.period
  {
    match h
    case TimerFires =>
      if l.armed {
        AdjPeriod(l.(armed := false));
      }
      hide AdjProc;
    case Aim(duty, period) =>
      var a := AddEvent(l, Request(duty, period));
      SmoothSteps(a);
      assert PeriodAgrees(TakeEvent(a));
      AdjPeriod(TakeEvent(a));
      hide AdjProc, SmoothAdj;
  }

  /** In every run from a tidy state the PWM has the period of the latest request. */
  lemma {:induction false} LatestPeriodIsSet(l: Light, hs: seq<Happening>)
    requires Tidy(l) && PeriodAgrees(l)
    ensures var r := Run(l, hs); PeriodAgrees(r) && r.period == WantedPeriod(l.period, hs)
  {
    if hs != [] {
      var n := |hs| - 1;
      LatestPeriodIsSet(l, hs[..n]);
      LatestRequestIsTarget(l, hs[..n]);
      HappenPeriod(Run(l, hs[..n]), hs[n]);
      hide Happen;
    }
  }

  /** And so in every run of the device. */
  lemma DevicePeriod(saved: Duties, period: nat, hs: seq<Happening>)
    requires 1000 <= period <= 10000
    ensures var l := SetAim(Boot(saved, period), saved, period);
      Run(l, hs).period == Run(l, hs).cachedPeriod == WantedPeriod(period, hs)
  {
    BootTidy(saved, period);
    HappenPeriod(Boot(saved, period), Aim(saved, period));
    hide SetAim, Boot;
    LatestPeriodIsSet(SetAim(Boot(saved, period), saved, period), hs);
  }

  lemma BootAdj(a: Light, t: Light)
    requires Valid(a) && a.used == 1 && a.finish && t == TakeEvent(a)
    ensures SmoothAdj(a) == var u := AdjProc(t); if u.finish then SaveTarget(u) else u
  {
  }
}
