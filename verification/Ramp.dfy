/** Holders without targets: the exponential ramp up, and the steps down again. */
module Ramp {
  import opened Words
  import opened CoolingDevice
  import opened DeviceRuns
  import opened Leaps
  import Pid

  /** Cut at max. */
  function Cut(c: Config, x: int): int
  {
    if c.min <= c.max then (if x > c.max then c.max else x) else (if x < c.max then c.max else x)
  }

  /** Where n activations in a row lead. */
  function RampTo(c: Config, n: nat): int
  {
    if n == 0 then c.min
    else if n == 1 then Cut(c, c.min + Step(c))
    else Cut(c, c.min + Step(c) + Pow2(Exponent(n - 1)) * Step(c))
  }

  /** No holder has a target or bounds of its own. */
  ghost predicate PlainList(ls: seq<Limit>) { forall l | l in ls :: !l.targeted && l.lo == 0 && l.hi == 0 }

  ghost predicate RampOk(c: Config)
  {
    SignOk(c) && Step(c) != 0 && c.min != c.max && !c.pidEnable && Fits(c.min) && Fits(c.max)
  }

  // ---- When a leap is right ----

  /** The exponent of the leap after n activations. */
  function Exponent(n: nat): nat { if n < MAX_EXPONENT then n else MAX_EXPONENT }

  /** The leap by 2^pow steps from where the ramp begins stays in 32 bits, or what is left of its
      length there still reaches max, in 32 bits again unless the code watches for overflow. */
  predicate LeapReaches(c: Config, pow: nat)
  {
    var first, d := RampTo(c, 1), LeapLength(c, pow);
    Fits(first + Pow2(pow) * Step(c)) || (d >= Size(c.max - first) && (c.inc != 0 || Fits(Onward(c, first, d))))
  }

  /** That is exactly when the device goes where the plain sum, cut at max, would take it. */
  lemma LeapIsRight(c: Config, pow: nat)
    requires RampOk(c)
    ensures ClampMax(c, Leap(c, RampTo(c, 1), pow), 0) == Cut(c, c.min + Step(c) + Pow2(pow) * Step(c)) <==>
              LeapReaches(c, pow)
  {
    var first := RampTo(c, 1);
    RampLeavesMin(c, 1);
    LeapGoesForward(c, pow);
    CutTwice(c, Pow2(pow) * Step(c));
    LeapIsLength(c, first, pow);
    SumIsRight(c, first, Pow2(pow) * Step(c), LeapLength(c, pow), Leap(c, first, pow));
  }

  lemma SumIsRight(c: Config, first: int, leap: int, d: nat, v: int)
    requires RampOk(c) && InRange(c, first) && d < 0x1_0000_0000 && (if c.min <= c.max then leap > 0 else leap < 0)
    requires Int32(first + leap) == Int32(Onward(c, first, d))
    requires var w := Int32(first + leap);
             v == if (c.inc < 0 && first < w) || (c.inc > 0 && first > w) then c.max else w
    ensures ClampMax(c, v, 0) == Cut(c, first + leap) <==>
            Fits(first + leap) || (d >= Size(c.max - first) && (c.inc != 0 || Fits(Onward(c, first, d))))
  {
  }

  lemma RegisterKeepsPlain(c: Config, ls: seq<Limit>, r: Request, ls': seq<Limit>)
    requires PlainList(ls) && Plain(r) && Registers(c, ls, r, ls')
    ensures PlainList(ls')
  {
    forall l | l in ls' ensures !l.targeted && l.lo == 0 && l.hi == 0 { RegisteredFrom(c, ls, r, ls', l); }
  }

  /** An activation that is not debounced is one step of the ramp. */
  lemma OnIsRamp(c: Config, s: State, r: Request, s': State)
    requires !c.pidEnable && PlainList(s.limits) && r.on && Plain(r) && !Debounced(c, s, r) && Steps(c, s, r, s')
    ensures PlainList(s'.limits) && s' == RampUp(c, Begin(c, s.(limits := s'.limits), r), 0, 0)
  {
    LimitsAfter(c, s, r, s');
    RegisterKeepsPlain(c, s.limits, r, s'.limits);
    assert LastOf(s'.limits) in s'.limits;
  }

  /** The device after n activations in a row from min. */
  ghost predicate Ramped(c: Config, s: State, n: nat)
  {
    PlainList(s.limits) && s.curr == RampTo(c, n) &&
    (n > 0 ==> s.trend && s.pow == Exponent(n - 1)) &&
    (n > 1 ==> s.base == RampTo(c, 1))
  }

  lemma RampLeavesMin(c: Config, n: nat)
    requires RampOk(c) && n > 0
    ensures RampTo(c, n) != c.min && InRange(c, RampTo(c, n))
  {
    if n > 1 { LeapGoesForward(c, Exponent(n - 1)); }
  }

  lemma CutTwice(c: Config, x: int)
    requires if c.min <= c.max then x >= 0 else x <= 0
    ensures Cut(c, Cut(c, c.min + Step(c)) + x) == Cut(c, c.min + Step(c) + x)
  {
  }

  /** One activation more is right exactly when its leap is. */
  lemma OneMore(c: Config, s: State, r: Request, s': State, n: nat)
    requires RampOk(c) && Ramped(c, s, n) && r.on && Plain(r) && !Debounced(c, s, r) && Steps(c, s, r, s')
    ensures s'.curr == RampTo(c, n + 1) <==> (n > 0 ==> LeapReaches(c, Exponent(n)))
    ensures s'.curr == RampTo(c, n + 1) ==> Ramped(c, s', n + 1)
  {
    OnIsRamp(c, s, r, s');
    var b := Begin(c, s.(limits := s'.limits), r);
    if n > 0 {
      RampLeavesMin(c, n);
      assert b.trend && b.curr == s.curr && b.pow == s.pow && b.base == s.base;
      RampAgain(c, b, RampTo(c, 1), Exponent(n));
      LeapIsRight(c, Exponent(n));
      RampToLater(c, n);
    }
  }

  lemma RampAgain(c: Config, b: State, base: int, pow: nat)
    requires b.trend && InRange(c, b.curr) && base == (if b.pow == 0 then b.curr else b.base)
    requires pow == if b.pow < MAX_EXPONENT then b.pow + 1 else b.pow
    ensures RampUp(c, b, 0, 0) == b.(base := base, pow := pow, curr := ClampMax(c, Leap(c, base, pow), 0))
  {
  }

  lemma RampToLater(c: Config, n: nat)
    requires n > 0
    ensures RampTo(c, n + 1) == Cut(c, c.min + Step(c) + Pow2(Exponent(n)) * Step(c))
  {
  }

  lemma RampStarts(c: Config, s: State)
    requires s.limits == [] && s.curr == c.min
    ensures Ramped(c, s, 0)
  {
  }

  /** A run of activations of a device at min, none of them debounced, by whomever. */
  ghost predicate Activations(c: Config, states: seq<State>, rs: seq<Request>)
  {
    IsRun(c, states, rs) && states[0].limits == [] && states[0].curr == c.min &&
    forall k | 0 <= k < |rs| :: rs[k].on && Plain(rs[k]) && !Debounced(c, states[k], rs[k])
  }

  /** The leaps of the first n activations. */
  ghost predicate LeapsReach(c: Config, n: nat) { forall k | 1 <= k < n :: LeapReaches(c, Exponent(k)) }

  /** The closed form of the ramp: one step, then from there two, four, eight steps and so on,
      cut at max, as long as each leap reaches. */
  lemma {:induction false} RampClosedForm(c: Config, states: seq<State>, rs: seq<Request>, n: nat)
    requires RampOk(c) && Activations(c, states, rs) && n < |states| && LeapsReach(c, n)
    ensures Ramped(c, states[n], n)
  {
    if n == 0 {
      RampStarts(c, states[0]);
    } else {
      RampClosedForm(c, states, rs, n - 1);
      assert n > 1 ==> LeapReaches(c, Exponent(n - 1));
      NextActivation(c, states, rs, n - 1);
    }
  }

  lemma NextActivation(c: Config, states: seq<State>, rs: seq<Request>, n: nat)
    requires RampOk(c) && Activations(c, states, rs) && n < |rs| && Ramped(c, states[n], n)
    ensures states[n + 1].curr == RampTo(c, n + 1) <==> (n > 0 ==> LeapReaches(c, Exponent(n)))
    ensures states[n + 1].curr == RampTo(c, n + 1) ==> Ramped(c, states[n + 1], n + 1)
  {
    assert Steps(c, states[n], rs[n], states[n + 1]);
    OneMore(c, states[n], rs[n], states[n + 1], n);
  }

  ghost predicate RampedUpTo(c: Config, states: seq<State>, n: nat)
    requires n < |states|
  {
    forall k | 0 <= k <= n :: states[k].curr == RampTo(c, k)
  }

  /** The device is where the closed form says after each of the first n activations if and only
      if each of their leaps reaches. */
  lemma {:induction false} RampIsExact(c: Config, states: seq<State>, rs: seq<Request>, n: nat)
    requires RampOk(c) && Activations(c, states, rs) && n < |states|
    ensures RampedUpTo(c, states, n) <==> LeapsReach(c, n)
  {
    if n == 0 {
      RampStarts(c, states[0]);
    } else {
      RampIsExact(c, states, rs, n - 1);
      LastLeap(c, n);
      assert RampedUpTo(c, states, n) <==> RampedUpTo(c, states, n - 1) && states[n].curr == RampTo(c, n);
      if LeapsReach(c, n - 1) {
        RampClosedForm(c, states, rs, n - 1);
        NextActivation(c, states, rs, n - 1);
      }
    }
  }

  lemma LastLeap(c: Config, n: nat)
    requires n > 0
    ensures LeapsReach(c, n) <==> LeapsReach(c, n - 1) && (n > 1 ==> LeapReaches(c, Exponent(n - 1)))
  {
  }

  /** Where the next leap goes, right or not. */
  lemma NextLeap(c: Config, states: seq<State>, rs: seq<Request>, n: nat)
    requires RampOk(c) && Activations(c, states, rs) && 0 < n < |rs| && Ramped(c, states[n], n)
    ensures states[n + 1].curr == ClampMax(c, Leap(c, RampTo(c, 1), Exponent(n)), 0)
  {
    assert Steps(c, states[n], rs[n], states[n + 1]);
    OnIsRamp(c, states[n], rs[n], states[n + 1]);
    RampLeavesMin(c, n);
    RampAgain(c, Begin(c, states[n].(limits := states[n + 1].limits), rs[n]), RampTo(c, 1), Exponent(n));
  }

  lemma PowersOfTwo()
    ensures Pow2(18) == 262_144 && Pow2(19) == 524_288 && Pow2(20) == 1_048_576
  {
    assert Pow2(9) == 512 && Pow2(10) == 1024;
    Pow2Add(9, 9);
    Pow2Add(10, 9);
    Pow2Add(10, 10);
  }

  /** Up to eighteen doublings of a step of 4096 from a small state fit. */
  lemma ShortLeapsFit(c: Config, n: nat)
    requires Step(c) == 4096 && 0 <= RampTo(c, 1) <= 4096 && n <= 19
    ensures LeapsReach(c, n)
  {
    forall k | 1 <= k < n ensures LeapReaches(c, Exponent(k)) {
      var top := 18;
      PowersOfTwo();
      Pow2Below(k, top);
    }
  }

  /** The twenty-first activation in a row of a device from 0 to 1000000 with an inc_val of 4096:
      the leap is 2^32, its 32-bit sum is where the ramp began, and the device falls back there
      from max. */
  lemma RampFallsBack(c: Config) returns (states: seq<State>, rs: seq<Request>)
    requires c.min == 0 && c.max == 1_000_000 && c.inc == 4096 && !c.pidEnable
    ensures IsRun(c, states, rs) && states[0] == NewState(c) && |rs| == 21 &&
            forall k | 0 <= k < |rs| :: rs[k] == PLAIN_ON
    ensures states[20].curr == 1_000_000 && states[21].curr == 4096
  {
    states, rs := PlainRun(c, 21);
    var n := 20;
    ShortLeapsFit(c, 19);
    PowersOfTwo();
    assert LeapReaches(c, Exponent(19));
    LastLeap(c, n);
    RampClosedForm(c, states, rs, n);
    NextLeap(c, states, rs, n);
  }

  /** Twenty activations in a row of a device from 0 to 100 with an inc_dec_val of 4096: the leap
      from 100 is 2^31, which nothing watches for, and the device leaves its range. */
  lemma OverflowLeavesRange(c: Config) returns (states: seq<State>, rs: seq<Request>)
    requires c.min == 0 && c.max == 100 && c.inc == 0 && c.incDec == 4096 && !c.pidEnable
    ensures IsRun(c, states, rs) && states[0] == NewState(c) && |rs| == 20 &&
            forall k | 0 <= k < |rs| :: rs[k] == PLAIN_ON
    ensures states[20].curr == 100 - 0x8000_0000 && !InRange(c, states[20].curr)
  {
    states, rs := PlainRun(c, 20);
    var n := 19;
    ShortLeapsFit(c, n);
    RampClosedForm(c, states, rs, n);
    NextLeap(c, states, rs, n);
    PowersOfTwo();
  }

  // ---- Stepping down ----

  /** How far the device is from min. */
  function Distance(c: Config, x: int): int { if c.min <= c.max then x - c.min else c.min - x }

  function Stride(c: Config): int { if c.min <= c.max then Down(c) else -Down(c) }

  /** The stride is the size of the configured step, whatever its sign. */
  lemma StrideIsSize(c: Config)
    ensures var d := if c.dec != 0 then c.dec else c.incDec; Stride(c) == if d >= 0 then d else -d
  {
  }

  function Less(d: int, stride: int): int { if d > stride then d - stride else 0 }

  /** A release takes effect when its caller is the last entry, or nobody is left. */
  predicate Effective(s: State, r: Request) { s.limits == [] || IsLast(s.limits, r) }

  lemma StepDownMoves(c: Config, s: State)
    requires InRange(c, s.curr) && !c.autoDown
    ensures InRange(c, StepDown(c, s).curr) && Distance(c, StepDown(c, s).curr) == Less(Distance(c, s.curr), Stride(c))
  {
  }

  lemma OffMoves(c: Config, s: State, r: Request, s': State)
    requires !c.pidEnable && !c.autoDown && PlainList(s.limits) && InRange(c, s.curr)
    requires !r.on && Plain(r) && !r.force && Steps(c, s, r, s')
    ensures PlainList(s'.limits) && InRange(c, s'.curr) &&
            |s'.limits| == if IsLast(s.limits, r) then |s.limits| - 1 else |s.limits|
    ensures Distance(c, s'.curr) == if Effective(s, r) then Less(Distance(c, s.curr), Stride(c))
                                    else Distance(c, s.curr)
  {
    var t, m, m' := StepFrom(c, s, r, s');
    OffServed(c, t, m, r, s', m');
  }

  lemma OffServed(c: Config, s: State, m: Pid.Memory, r: Request, s': State, m': Pid.Memory)
    requires !c.pidEnable && !c.autoDown && PlainList(s.limits) && InRange(c, s.curr)
    requires !r.on && Plain(r) && !r.force && Serves(c, s, m, r, s', m')
    ensures PlainList(s'.limits) && InRange(c, s'.curr) &&
            |s'.limits| == if IsLast(s.limits, r) then |s.limits| - 1 else |s.limits|
    ensures Distance(c, s'.curr) == if Effective(s, r) then Less(Distance(c, s.curr), Stride(c))
                                    else Distance(c, s.curr)
  {
    ServedLimits(c, s, m, r, s', m');
    forall l | l in s'.limits ensures l in s.limits { }
    if Effective(s, r) {
      StepDownMoves(c, Begin(c, s.(limits := s'.limits), r));
      if |s'.limits| > 0 { assert LastOf(s'.limits) in s'.limits; }
      if |s.limits| == 1 { assert s.limits[0] in s.limits; }
    }
  }

  /** d less n strides. */
  function Left(d: int, stride: int, n: nat): int { if d > n * stride then d - n * stride else 0 }

  function CeilDiv(d: nat, k: nat): nat
    requires k > 0
  {
    (d + k - 1) / k
  }

  /** Nothing is left after ceil(d / stride) steps, and something is before that. */
  lemma LeftUntil(d: nat, stride: nat, n: nat)
    requires stride > 0
    ensures Left(d, stride, n) == 0 <==> n >= CeilDiv(d, stride)
  {
    var q := CeilDiv(d, stride);
    assert q * stride >= d && (q > 0 ==> (q - 1) * stride < d);
    if n >= q { MulMono(stride, q, n); } else { MulMono(stride, n, q - 1); }
  }

  /** Each release that takes effect moves the device exactly one step towards min, which it
      reaches with the ceil(distance / step)-th of them. */
  lemma {:induction false} ReleasesStepDown(c: Config, states: seq<State>, rs: seq<Request>, n: nat)
    requires !c.pidEnable && !c.autoDown && Stride(c) > 0 && IsRun(c, states, rs) && n < |states|
    requires PlainList(states[0].limits) && InRange(c, states[0].curr)
    requires forall k | 0 <= k < |rs| :: !rs[k].on && Plain(rs[k]) && !rs[k].force && Effective(states[k], rs[k])
    ensures PlainList(states[n].limits) && InRange(c, states[n].curr)
    ensures Distance(c, states[n].curr) == Left(Distance(c, states[0].curr), Stride(c), n)
    ensures states[n].curr == c.min <==> n >= CeilDiv(Distance(c, states[0].curr), Stride(c))
  {
    if n > 0 {
      ReleasesStepDown(c, states, rs, n - 1);
      assert Steps(c, states[n - 1], rs[n - 1], states[n - 1 + 1]);
      OffMoves(c, states[n - 1], rs[n - 1], states[n]);
      LessLeft(Distance(c, states[0].curr), Stride(c), n);
    }
    LeftUntil(Distance(c, states[0].curr), Stride(c), n);
  }

  lemma LessLeft(d: int, stride: int, n: nat)
    requires n > 0 && stride > 0 && d >= 0
    ensures Less(Left(d, stride, n - 1), stride) == Left(d, stride, n)
  {
    assert n * stride == (n - 1) * stride + stride;
  }
}
