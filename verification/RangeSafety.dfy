/** When a device stays in its range: the condition is exact. */
module RangeSafety {
  import opened Words
  import opened CoolingDevice
  import opened DeviceRuns
  import opened Leaps
  import Pid

  /** The sign of the step decides the first activation, in both directions: with the default
      positive step a device that runs downwards leaves its range at once. */
  lemma SignDecides(c: Config, s: State, r: Request, s': State)
    requires !c.pidEnable && s.curr == c.min && s.limits == [] && !s.lastOn && r.on && Plain(r) && Steps(c, s, r, s')
    ensures InRange(c, s'.curr) <==> SignOk(c)
  {
    LimitsAfter(c, s, r, s');
    assert s'.limits == [NewLimit(c, r)];
  }

  // ---- What runs reach ----

  /** The device is in this state after some run from its making, of requests in range. */
  ghost predicate Reachable(c: Config, s: State)
  {
    exists states, rs :: EndsIn(c, states, rs, s)
  }

  ghost predicate EndsIn(c: Config, states: seq<State>, rs: seq<Request>, s: State)
  {
    IsRun(c, states, rs) && IsNew(c, states[0]) && (forall k | 0 <= k < |rs| :: RequestOk(c, rs[k])) &&
    states[|rs|] == s
  }

  lemma NewIsReachable(c: Config)
    ensures Reachable(c, NewState(c))
  {
    assert EndsIn(c, [NewState(c)], [], NewState(c));
  }

  lemma StepIsReachable(c: Config, s: State, r: Request, s': State)
    requires Reachable(c, s) && RequestOk(c, r) && Steps(c, s, r, s')
    ensures Reachable(c, s')
  {
    var states, rs :| EndsIn(c, states, rs, s);
    var states', rs' := states + [s'], rs + [r];
    forall k | 0 <= k < |rs'| ensures Steps(c, states'[k], rs'[k], states'[k + 1]) && RequestOk(c, rs'[k]) {
      if k < |rs| { assert Steps(c, states[k], rs[k], states[k + 1]); }
    }
    assert EndsIn(c, states', rs', s');
  }

  /** Whatever is asked of it, a new device never leaves its range. */
  ghost predicate NeverLeaves(c: Config) { forall s | Reachable(c, s) :: InRange(c, s.curr) }

  lemma SafeNeverLeaves(c: Config)
    requires RampSafe(c)
    ensures NeverLeaves(c)
  {
    forall s | Reachable(c, s) ensures InRange(c, s.curr) {
      var states, rs :| EndsIn(c, states, rs, s);
      RunIsSafe(c, states, rs, |rs|);
    }
  }

  lemma SignIsNeeded(c: Config)
    requires !c.pidEnable && !SignOk(c)
    ensures !NeverLeaves(c)
  {
    NewIsReachable(c);
    var s' := Forced(c, NewState(c), PLAIN_ON);
    StepIsReachable(c, NewState(c), PLAIN_ON, s');
    SignDecides(c, NewState(c), PLAIN_ON, s');
  }

  // ---- Steering to a leap ----

  /** The trip's own controller takes the device to base. */
  function Steer(c: Config, base: int): Request
  {
    PLAIN_ON.(temperature := 1, tripPid := true, tripGains := Pid.Gains((base - c.min) as real, 0.0, 0.0))
  }

  lemma SteerGoesTo(c: Config, s: State, base: int)
    requires InRange(c, base) && !c.pidEnable
    ensures Act(c, s, Steer(c, base), Goal(false, 0, 0, 0), Pid.FRESH).0 == Begin(c, s, Steer(c, base)).(curr := base)
  {
    SteerState(c, base, Begin(c, s, Steer(c, base)).curr - c.min);
  }

  lemma SteerState(c: Config, base: int, initial: int)
    requires InRange(c, base)
    ensures var r := Steer(c, base); PidState(c, r.tripGains, Pid.FRESH, r, initial) == base
  {
    var r := Steer(c, base);
    assert Error(r) == 1;
    SteerOutput(r.tripGains, base - c.min, initial, r.now);
    InRangeStays(c, base);
  }

  lemma InRangeStays(c: Config, x: int)
    requires InRange(c, x)
    ensures ClampPid(c, x) == x
  {
  }

  lemma SteerOutput(g: Pid.Gains, out: int, initial: int, now: int)
    requires g == Pid.Gains(out as real, 0.0, 0.0)
    ensures Pid.Truncate(Pid.Output(g, Pid.FRESH, 1, initial, now)) == out
  {
  }

  /** Ramping from base, after k leaps. */
  ghost predicate Ramping(c: Config, s: State, base: int, k: nat)
  {
    Reachable(c, s) && s.limits == Alone(c) && s.trend && s.pow == k &&
    if k == 0 then s.curr == base else s.base == base && s.curr == ClampMax(c, Leap(c, base, k), 0)
  }

  lemma RampFrom(c: Config, base: int) returns (s: State)
    requires !c.pidEnable && SignOk(c) && Step(c) != 0 && c.min != c.max && InRange(c, base)
    ensures Ramping(c, s, base, 0)
  {
    NewIsReachable(c);
    var s1 := Forced(c, NewState(c), PLAIN_ON);
    StepIsReachable(c, NewState(c), PLAIN_ON, s1);
    assert s1.trend && s1.pow == 0 && s1.curr != c.min;
    s := Forced(c, s1, Steer(c, base));
    StepIsReachable(c, s1, Steer(c, base), s);
    SteerGoesTo(c, s1.(limits := Alone(c)), base);
  }

  lemma OneLeap(c: Config, s: State, base: int, k: nat) returns (s': State)
    requires !c.pidEnable && Ramping(c, s, base, k) && k < MAX_EXPONENT && InRange(c, s.curr) && s.curr != c.min
    ensures Ramping(c, s', base, k + 1)
  {
    s' := Forced(c, s, PLAIN_ON);
    StepIsReachable(c, s, PLAIN_ON, s');
  }

  // ---- Twenty tests for a step by inc_dec_val ----

  /** Nothing is before a min that is the last 32-bit number. */
  predicate AtEdge(c: Config) { if c.min <= c.max then c.min == -0x8000_0000 else c.min == 0x7FFF_FFFF }

  /** From max, the leap stays in 32 bits. */
  predicate LeapFits(c: Config, pow: nat) { AtEdge(c) || Fits(Onward(c, c.max, LeapLength(c, pow))) }

  lemma FittingLeapLands(c: Config, base: int, pow: nat)
    requires SignOk(c) && Fits(c.min) && Fits(c.max) && InRange(c, base) && LeapFits(c, pow)
    ensures LeapLands(c, base, pow)
    ensures c.inc == 0 && !AtEdge(c) && base != c.min ==>
              InRange(c, ClampMax(c, Leap(c, base, pow), 0)) && ClampMax(c, Leap(c, base, pow), 0) != c.min
  {
    LeapIsLength(c, base, pow);
    FittingSumLands(c, base, LeapLength(c, pow));
  }

  lemma FittingSumLands(c: Config, base: int, d: nat)
    requires InRange(c, base) && Fits(c.min) && Fits(c.max) && (AtEdge(c) || Fits(Onward(c, c.max, d)))
    ensures var x := Int32(Onward(c, base, d));
            NotBefore(c, x) &&
            (!AtEdge(c) && base != c.min ==> InRange(c, ClampMax(c, x, 0)) && ClampMax(c, x, 0) != c.min)
  {
  }

  /** The base nearest to min, but not min, from which the leap overflows. */
  lemma OverflowFalls(c: Config, pow: nat) returns (base: int)
    requires SignOk(c) && c.min != c.max && Fits(c.min) && Fits(c.max) && pow > 0 && !LeapFits(c, pow)
    ensures InRange(c, base) && base != c.min && !LeapLands(c, base, pow)
  {
    LeapLengthIsEven(c, pow);
    base := FallingBase(c, LeapLength(c, pow));
    LeapIsLength(c, base, pow);
  }

  lemma FallingBase(c: Config, d: nat) returns (base: int)
    requires c.min != c.max && Fits(c.min) && Fits(c.max) && d < 0xFFFF_FFFF && !AtEdge(c) && !Fits(Onward(c, c.max, d))
    ensures InRange(c, base) && base != c.min && !NotBefore(c, Int32(Onward(c, base, d)))
  {
    if c.min <= c.max {
      base := if c.min + 1 + d < 0x8000_0000 then 0x8000_0000 - d else c.min + 1;
    } else {
      base := if c.min - 1 - d >= -0x8000_0000 then d - 0x8000_0001 else c.min - 1;
    }
  }

  ghost predicate AllLeapsFit(c: Config, n: nat) { forall pow: nat | 1 <= pow <= n :: LeapFits(c, pow) }

  /** Twenty tests tell whether the ramp of a step by inc_dec_val is safe. */
  lemma LeapTests(c: Config)
    requires c.inc == 0 && SignOk(c) && c.min != c.max && Fits(c.min) && Fits(c.max)
    ensures LeapsOk(c) <==> AllLeapsFit(c, MAX_EXPONENT)
  {
    if pow: nat :| 1 <= pow <= MAX_EXPONENT && !LeapFits(c, pow) {
      var base := OverflowFalls(c, pow);
    } else {
      forall base, pow: nat | InRange(c, base) && 1 <= pow <= MAX_EXPONENT ensures LeapLands(c, base, pow) {
        FittingLeapLands(c, base, pow);
      }
    }
  }

  // ---- The condition is exact ----

  lemma {:induction false} FirstMisfit(c: Config, n: nat) returns (k: nat)
    requires !AllLeapsFit(c, n)
    ensures 1 <= k <= n && !LeapFits(c, k) && AllLeapsFit(c, k - 1)
  {
    if AllLeapsFit(c, n - 1) { k := n; } else { k := FirstMisfit(c, n - 1); }
  }

  /** As long as the leaps fit, the ramp goes on. */
  lemma {:induction false} RampOn(c: Config, base: int, k: nat) returns (s: State)
    requires !c.pidEnable && c.inc == 0 && SignOk(c) && Step(c) != 0 && c.min != c.max && Fits(c.min) && Fits(c.max) &&
             !AtEdge(c)
    requires InRange(c, base) && base != c.min && k <= MAX_EXPONENT && (k > 0 ==> AllLeapsFit(c, k - 1))
    ensures Ramping(c, s, base, k)
  {
    if k == 0 {
      s := RampFrom(c, base);
    } else {
      var t := RampOn(c, base, k - 1);
      if k > 1 { FittingLeapLands(c, base, k - 1); }
      s := OneLeap(c, t, base, k - 1);
    }
  }

  lemma LandingIsNeeded(c: Config)
    requires !c.pidEnable && c.inc == 0 && SignOk(c) && c.min != c.max && Fits(c.min) && Fits(c.max) &&
             !AllLeapsFit(c, MAX_EXPONENT)
    ensures !NeverLeaves(c)
  {
    var k := FirstMisfit(c, MAX_EXPONENT);
    var base := OverflowFalls(c, k);
    MisfitMoves(c, k);
    var s := RampOn(c, base, k);
  }

  lemma MisfitMoves(c: Config, k: nat)
    requires Fits(c.max) && !LeapFits(c, k)
    ensures Step(c) != 0 && !AtEdge(c)
  {
    if Step(c) == 0 { NoLength(c, Pow2(k)); }
  }

  lemma NoLength(c: Config, p: nat)
    requires Step(c) == 0
    ensures p * Size(Step(c)) % 0x1_0000_0000 == 0
  {
    assert p * 0 == 0;
  }

  /** A new device stays in its range whatever is asked of it if and only if its own controller
      replaces the ramp, or its step is signed towards max and no leap lands before min. */
  lemma RangeSafetyIsExact(c: Config)
    requires Fits(c.min) && Fits(c.max)
    ensures NeverLeaves(c) <==> RampSafe(c)
  {
    if RampSafe(c) {
      SafeNeverLeaves(c);
    } else if !SignOk(c) {
      SignIsNeeded(c);
    } else {
      LeapTests(c);
      LandingIsNeeded(c);
    }
  }

  /** A step by inc_val needs no more than its sign. */
  lemma IncNeedsOnlySign(c: Config)
    requires c.inc != 0 && !c.pidEnable
    ensures NeverLeaves(c) <==> SignOk(c)
  {
    if SignOk(c) { SafeNeverLeaves(c); } else { SignIsNeeded(c); }
  }
}
