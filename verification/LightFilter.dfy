/**
 The smoothing filter of one light channel: each tick moves the duty a sixteenth of the
 way to its target, in 32-bit arithmetic, and snaps to it when less than 20 away.
 */
module LightFilter {
  import opened Bytes

  const U32 := 0x1_0000_0000

  /** No request sets a duty above this: `duty_max_limit` is a uint32 divided by 45. */
  const MAX_DUTY := 0xFFFF_FFFF / 45

  function AbsMinus(x: nat, y: nat): nat {
    if x < y then y - x else x - y
  }

  /** One tick of `duty_now` towards `current_duty`. */
  function Filter(now: nat, target: nat): nat {
    var x := ((now * 15) % U32 + target) % U32 / 16;
    if AbsMinus(x, target) < 20 then target else x
  }

  function Ticks(now: nat, target: nat, n: nat): nat {
    if n == 0 then now else Filter(Ticks(now, target, n - 1), target)
  }

  /** A tick never passes the target, shrinks any error there is, and by a sixteenth of
      what it has above 15. The sums never overflow. */
  lemma FilterShrinks(now: nat, target: nat)
    requires now <= MAX_DUTY && target <= MAX_DUTY
    ensures var x := Filter(now, target);
      && x <= MAX_DUTY
      && (now <= x <= target || target <= x <= now)
      && (now != target ==> AbsMinus(x, target) < AbsMinus(now, target))
      && (x != target ==> 20 <= AbsMinus(x, target))
      && (x != target ==> 16 * (AbsMinus(x, target) - 15) <= 15 * (AbsMinus(now, target) - 15))
  {
    assert (now * 15) % U32 == now * 15;
    assert (now * 15 + target) % U32 == now * 15 + target;
  }

  /** How far a tick goes: a sixteenth of the way, up to the rounding of the shift, and all
      of it when less than 20 would be left. */
  lemma FilterMoves(now: nat, target: nat)
    requires now <= MAX_DUTY && target <= MAX_DUTY
    ensures var e, r := AbsMinus(now, target), AbsMinus(Filter(now, target), target);
      var left := if now >= target then 15 * e / 16 else (15 * e + 15) / 16;
      r == if left < 20 then 0 else left
  {
    FilterShrinks(now, target);
    assert (now * 15) % U32 == now * 15;
    assert (now * 15 + target) % U32 == now * 15 + target;
  }

  lemma {:induction false} TicksBounded(now: nat, target: nat, n: nat)
    requires now <= MAX_DUTY && target <= MAX_DUTY
    ensures Ticks(now, target, n) <= MAX_DUTY
    ensures n > 0 && Ticks(now, target, n) != target ==> 20 <= AbsMinus(Ticks(now, target, n), target)
    ensures now == target ==> Ticks(now, target, n) == target
  {
    if n > 0 {
      TicksBounded(now, target, n - 1);
      FilterShrinks(Ticks(now, target, n - 1), target);
    }
  }

  /** Once at the target, always there. */
  lemma {:induction false} StaysAtTarget(now: nat, target: nat, m: nat, n: nat)
    requires now <= MAX_DUTY && target <= MAX_DUTY && m <= n && Ticks(now, target, m) == target
    ensures Ticks(now, target, n) == target
    decreases n
  {
    if m < n {
      StaysAtTarget(now, target, m, n - 1);
      FilterShrinks(target, target);
    }
  }

  /** Ticks from the front. */
  lemma {:induction false} TicksAdd(now: nat, target: nat, m: nat, n: nat)
    ensures Ticks(now, target, m + n) == Ticks(Ticks(now, target, m), target, n)
    decreases n
  {
    if n > 0 {
      TicksAdd(now, target, m, n - 1);
      assert Ticks(now, target, m + n) == Filter(Ticks(now, target, m + n - 1), target);
    }
  }

  /** Four ticks; 50625 / 65536 is the fourth power of 15 / 16. */
  lemma FourTicks(now: nat, target: nat)
    requires now <= MAX_DUTY && target <= MAX_DUTY
    ensures var x := Ticks(now, target, 4);
      x <= MAX_DUTY
      && (x != target ==> 65536 * (AbsMinus(x, target) - 15) <= 50625 * (AbsMinus(now, target) - 15))
  {
    var a := Filter(now, target);
    var b := Filter(a, target);
    var c := Filter(b, target);
    FilterShrinks(now, target);
    FilterShrinks(a, target);
    FilterShrinks(b, target);
    FilterShrinks(c, target);
    assert Ticks(now, target, 4) == Filter(c, target) by {
      assert Ticks(now, target, 0) == now;
      assert Ticks(now, target, 1) == a;
      assert Ticks(now, target, 2) == b;
      assert Ticks(now, target, 3) == c;
    }
    hide Filter, Ticks;
  }

  /** Sixteen ticks halve what the error has above 15. */
  lemma SixteenTicks(now: nat, target: nat)
    requires now <= MAX_DUTY && target <= MAX_DUTY
    ensures var x := Ticks(now, target, 16);
      x <= MAX_DUTY && (x != target ==> 2 * (AbsMinus(x, target) - 15) <= AbsMinus(now, target) - 15)
  {
    hide Ticks, Filter;
    var a := Ticks(now, target, 4);
    var b := Ticks(a, target, 4);
    var c := Ticks(b, target, 4);
    FourTicks(now, target);
    FourTicks(a, target);
    FourTicks(b, target);
    FourTicks(c, target);
    TicksAdd(now, target, 4, 4);
    TicksAdd(now, target, 8, 4);
    TicksAdd(now, target, 12, 4);
    if Ticks(now, target, 16) != target {
      TargetEarlier(a, b, c, target);
      TicksBounded(c, target, 4);
    }
  }

  lemma TargetEarlier(a: nat, b: nat, c: nat, target: nat)
    requires a <= MAX_DUTY && b == Ticks(a, target, 4) && c == Ticks(b, target, 4) && target <= MAX_DUTY
    requires Ticks(c, target, 4) != target
    ensures a != target && b != target && c != target
  {
    TicksBounded(a, target, 4);
    TicksBounded(b, target, 4);
    TicksBounded(c, target, 4);
  }

  /** The number of ticks is logarithmic in the distance. */
  lemma {:induction false} ReachesTarget(now: nat, target: nat, k: nat)
    requires now <= MAX_DUTY && target <= MAX_DUTY && k > 0
    requires AbsMinus(now, target) < 15 + 5 * Pow2(k)
    ensures Ticks(now, target, 16 * k) == target
    decreases k
  {
    var x := Ticks(now, target, 16);
    SixteenTicks(now, target);
    TicksBounded(now, target, 16);
    TicksAdd(now, target, 16, 16 * (k - 1));
    assert Pow2(0) == 1;
    if x == target {
      TicksBounded(target, target, 16 * (k - 1));
    } else {
      assert AbsMinus(x, target) < 15 + 5 * Pow2(k - 1);
      ReachesTarget(x, target, k - 1);
    }
  }

  /** From any duty to any other it takes at most 400 ticks of 15 ms. */
  lemma WithinFourHundredTicks(now: nat, target: nat, n: nat)
    requires now <= MAX_DUTY && target <= MAX_DUTY && n >= 400
    ensures Ticks(now, target, n) == target
  {
    assert Pow2(5) == 32;
    assert Pow2(10) == 32 * Pow2(5);
    assert Pow2(15) == 32 * Pow2(10);
    assert Pow2(20) == 32 * Pow2(15);
    assert Pow2(25) == 32 * Pow2(20);
    ReachesTarget(now, target, 25);
    StaysAtTarget(now, target, 400, n);
  }
}
