/** What holds of a cooling device over any run of requests. */
module DeviceRuns {
  import opened Words
  import opened CoolingDevice
  import Pid

  /** One request, made as it is or by thd_cdev_set_min_state, which clears the trend before it
      releases. Some memory of the caller's controller, which may have changed in between,
      explains the step. */
  ghost predicate Steps(c: Config, s: State, r: Request, s': State)
  {
    exists m, m' :: Serves(c, s, m, r, s', m') || (!r.on && Serves(c, Untrended(s), m, r, s', m'))
  }

  function Untrended(s: State): State { s.(trend := false) }

  /** Where a step really starts. */
  lemma StepFrom(c: Config, s: State, r: Request, s': State) returns (t: State, m: Pid.Memory, m': Pid.Memory)
    requires Steps(c, s, r, s')
    ensures Serves(c, t, m, r, s', m') && (t == s || (!r.on && t == Untrended(s)))
  {
    m, m' :| Serves(c, s, m, r, s', m') || (!r.on && Serves(c, Untrended(s), m, r, s', m'));
    t := if Serves(c, s, m, r, s', m') then s else Untrended(s);
  }

  /** states[k] is the device before request k. */
  ghost predicate IsRun(c: Config, states: seq<State>, rs: seq<Request>)
  {
    |states| == |rs| + 1 && forall k | 0 <= k < |rs| :: Steps(c, states[k], rs[k], states[k + 1])
  }

  // ---- The list of holders ----

  lemma RegisteredFrom(c: Config, ls: seq<Limit>, r: Request, ls': seq<Limit>, x: Limit)
    requires Registers(c, ls, r, ls') && x in ls'
    ensures x in ls || (x == NewLimit(c, r) && !Listed(ls, r.zone, r.trip))
  {
    if !Listed(ls, r.zone, r.trip) {
      assert x in multiset(ls');
    }
  }

  lemma RegisteredHas(c: Config, ls: seq<Limit>, r: Request, ls': seq<Limit>, x: Limit)
    requires Registers(c, ls, r, ls')
    requires x in ls || (x == NewLimit(c, r) && !Listed(ls, r.zone, r.trip))
    ensures x in ls' && |ls'| > 0
  {
    if !Listed(ls, r.zone, r.trip) {
      assert x in ls + [NewLimit(c, r)];
      assert x in multiset(ls');
    }
  }

  lemma RegisteredSize(c: Config, ls: seq<Limit>, r: Request, ls': seq<Limit>)
    requires Registers(c, ls, r, ls')
    ensures |ls'| == if Listed(ls, r.zone, r.trip) then |ls| else |ls| + 1
  {
    assert |multiset(ls')| == |ls'| && |multiset(ls + [NewLimit(c, r)])| == |ls| + 1;
  }

  /** The list after a request. */
  lemma LimitsAfter(c: Config, s: State, r: Request, s': State)
    requires Steps(c, s, r, s')
    ensures r.on ==> Registers(c, s.limits, r, s'.limits)
    ensures !r.on ==> s'.limits == if IsLast(s.limits, r) then s.limits[..|s.limits| - 1] else s.limits
  {
    var t, m, m' := StepFrom(c, s, r, s');
    ServedLimits(c, t, m, r, s', m');
  }

  lemma ServedLimits(c: Config, s: State, m: Pid.Memory, r: Request, s': State, m': Pid.Memory)
    requires Serves(c, s, m, r, s', m')
    ensures r.on ==> Registers(c, s.limits, r, s'.limits)
    ensures !r.on ==> s'.limits == if IsLast(s.limits, r) then s.limits[..|s.limits| - 1] else s.limits
  {
  }

  predicate SameHolder(a: Limit, b: Limit) { a.zone == b.zone && a.trip == b.trip }

  ghost predicate NoDuplicates(ls: seq<Limit>)
  {
    forall i, j :: 0 <= i < j < |ls| ==> !SameHolder(ls[i], ls[j])
  }

  lemma {:induction false} TwicePlaces(ls: seq<Limit>, x: Limit)
    requires multiset(ls)[x] >= 2
    ensures exists i, j :: 0 <= i < j < |ls| && ls[i] == x && ls[j] == x
  {
    var n := |ls| - 1;
    assert ls == ls[..n] + [ls[n]];
    if ls[n] != x {
      TwicePlaces(ls[..n], x);
      var i, j :| 0 <= i < j < n && ls[..n][i] == x && ls[..n][j] == x;
      assert ls[i] == x && ls[j] == x;
    } else {
      assert x in multiset(ls[..n]);
      var i :| 0 <= i < n && ls[..n][i] == x;
      assert ls[i] == x && ls[n] == x;
    }
  }

  lemma PlacesTwice(ls: seq<Limit>, i: nat, j: nat)
    requires i < j < |ls| && ls[i] == ls[j]
    ensures multiset(ls)[ls[i]] >= 2
  {
    assert ls == ls[..j] + ls[j..] && ls[..j][i] == ls[i] && ls[j..][0] == ls[j];
    assert ls[i] in multiset(ls[..j]) && ls[i] in multiset(ls[j..]);
  }

  /** The order of the list does not matter for duplicates. */
  lemma PermutationKeepsDistinct(ls: seq<Limit>, ls': seq<Limit>)
    requires multiset(ls) == multiset(ls') && NoDuplicates(ls)
    ensures NoDuplicates(ls')
  {
    forall i, j | 0 <= i < j < |ls'| ensures !SameHolder(ls'[i], ls'[j]) {
      assert ls'[i] in multiset(ls) && ls'[j] in multiset(ls);
      var p :| 0 <= p < |ls| && ls[p] == ls'[i];
      var q :| 0 <= q < |ls| && ls[q] == ls'[j];
      if SameHolder(ls'[i], ls'[j]) {
        assert !(p < q) && !(q < p);
        PlacesTwice(ls', i, j);
        TwicePlaces(ls, ls'[i]);
      }
    }
  }

  /** No (zone, trip) is ever listed twice. */
  lemma StepKeepsDistinct(c: Config, s: State, r: Request, s': State)
    requires Steps(c, s, r, s') && NoDuplicates(s.limits)
    ensures NoDuplicates(s'.limits)
  {
    LimitsAfter(c, s, r, s');
    if r.on && !Listed(s.limits, r.zone, r.trip) {
      var ls := s.limits + [NewLimit(c, r)];
      forall i, j | 0 <= i < j < |ls| ensures !SameHolder(ls[i], ls[j]) {
        assert !Holds(s.limits[i], r.zone, r.trip);
      }
      PermutationKeepsDistinct(ls, s'.limits);
    }
  }

  lemma {:induction false} RunKeepsDistinct(c: Config, states: seq<State>, rs: seq<Request>, n: nat)
    requires IsRun(c, states, rs) && n < |states| && NoDuplicates(states[0].limits)
    ensures NoDuplicates(states[n].limits)
  {
    if n > 0 {
      RunKeepsDistinct(c, states, rs, n - 1);
      assert Steps(c, states[n - 1], rs[n - 1], states[n - 1 + 1]);
      StepKeepsDistinct(c, states[n - 1], rs[n - 1], states[n]);
    }
  }

  /** A release by anyone but the last entry's holder changes nothing, forced or not. */
  lemma OtherReleaseIgnored(c: Config, s: State, m: Pid.Memory, r: Request, s': State, m': Pid.Memory)
    requires Serves(c, s, m, r, s', m') && !r.on && |s.limits| > 0 && !IsLast(s.limits, r)
    ensures s' == s && m' == m
  {
  }

  // ---- Range ----

  predicate InRange(c: Config, x: int) { c.min <= x <= c.max || c.max <= x <= c.min }

  predicate Fits(x: int) { -0x8000_0000 <= x < 0x8000_0000 }

  /** The step is signed towards max. */
  predicate SignOk(c: Config) { if c.min <= c.max then Step(c) >= 0 else Step(c) <= 0 }

  /** At min, or on max's side of it. */
  predicate NotBefore(c: Config, x: int) { if c.min <= c.max then x >= c.min else x <= c.min }

  /** The 32-bit sum of a leap does not land before min. */
  predicate LeapLands(c: Config, base: int, pow: nat) { NotBefore(c, Int32(base + Pow2(pow) * Step(c))) }

  /** What the ramp needs of the arithmetic: a step by inc_val is watched for overflow, one by
      inc_dec_val is not. No leap starts from min. */
  ghost predicate LeapsOk(c: Config)
  {
    c.inc != 0 || c.min == c.max ||
    forall base, pow: nat | InRange(c, base) && base != c.min && 1 <= pow <= MAX_EXPONENT :: LeapLands(c, base, pow)
  }

  ghost predicate RampSafe(c: Config) { c.pidEnable || (SignOk(c) && LeapsOk(c)) }

  predicate BoundOk(c: Config, x: int) { x == 0 || InRange(c, x) }

  predicate LimitOk(c: Config, l: Limit)
  {
    (l.targeted ==> InRange(c, l.target)) && BoundOk(c, l.lo) && BoundOk(c, l.hi)
  }

  predicate RequestOk(c: Config, r: Request)
  {
    (r.targeted ==> InRange(c, r.target)) &&
    (r.bounded ==> (BoundOk(c, r.lo) || r.lo == INVALID_TARGET) && (BoundOk(c, r.hi) || r.hi == INVALID_TARGET))
  }

  ghost predicate Safe(c: Config, s: State)
  {
    InRange(c, s.curr) && s.pow <= MAX_EXPONENT && (s.trend && s.pow > 0 ==> InRange(c, s.base) && s.base != c.min) &&
    forall l | l in s.limits :: LimitOk(c, l)
  }

  lemma ScaleBetween(p: nat, q: nat, step: int)
    requires 1 <= p <= q
    ensures step >= 0 ==> 0 <= p * step <= q * step
    ensures step <= 0 ==> 0 >= p * step >= q * step
  {
    if step >= 0 { MulMono(step, p, q); } else { MulMono(-step, p, q); }
  }

  lemma LeapGoesForward(c: Config, pow: nat)
    requires SignOk(c)
    ensures var d := Pow2(pow) * Step(c); if c.min <= c.max then d >= Step(c) else d <= Step(c)
  {
    Pow2Below(0, pow);
    ScaleBetween(1, Pow2(pow), Step(c));
  }

  /** Without overflow a leap is the plain sum, and goes towards max. */
  lemma LeapIsPlain(c: Config, base: int, pow: nat)
    requires SignOk(c) && Fits(base + Pow2(pow) * Step(c))
    ensures Leap(c, base, pow) == base + Pow2(pow) * Step(c)
    ensures if c.min <= c.max then Leap(c, base, pow) >= base else Leap(c, base, pow) <= base
  {
    LeapGoesForward(c, pow);
  }

  /** No leap that the ramp makes lands before min. */
  lemma LeapIsSafe(c: Config, base: int, pow: nat)
    requires SignOk(c) && LeapsOk(c) && InRange(c, base) && base != c.min && 1 <= pow <= MAX_EXPONENT
    ensures NotBefore(c, Leap(c, base, pow))
  {
    if c.inc == 0 { assert LeapLands(c, base, pow); }
  }

  lemma RampIsSafe(c: Config, s: State, lo: int, hi: int)
    requires SignOk(c) && LeapsOk(c) && Safe(c, s) && BoundOk(c, lo) && BoundOk(c, hi) && (s.curr == c.min ==> !s.trend)
    ensures Safe(c, RampUp(c, s, lo, hi))
  {
    var curr := ClampMin(c, s.curr, lo);
    assert InRange(c, curr);
    if s.trend {
      var base := if s.pow == 0 then curr else s.base;
      var pow := if s.pow < MAX_EXPONENT then s.pow + 1 else s.pow;
      LeapIsSafe(c, base, pow);
    }
  }

  lemma ActIsSafe(c: Config, s: State, r: Request, g: Goal, m: Pid.Memory)
    requires RampSafe(c) && Safe(c, s) && (g.targeted ==> InRange(c, g.target)) && BoundOk(c, g.lo) && BoundOk(c, g.hi)
    ensures Safe(c, Act(c, s, r, g, m).0)
  {
    var b := Begin(c, s, r);
    assert Safe(c, b);
    if !c.pidEnable { RampIsSafe(c, b, g.lo, g.hi); }
  }

  lemma LastIsOk(c: Config, s: State, ls: seq<Limit>)
    requires |ls| > 0 && Safe(c, s.(limits := ls))
    ensures LimitOk(c, LastOf(ls))
  {
    assert LastOf(ls) in ls;
  }

  lemma RegisteredAreOk(c: Config, s: State, r: Request, ls: seq<Limit>)
    requires Safe(c, s) && RequestOk(c, r) && Registers(c, s.limits, r, ls)
    ensures Safe(c, s.(limits := ls))
  {
    forall l | l in ls ensures LimitOk(c, l) { RegisteredFrom(c, s.limits, r, ls, l); }
  }

  lemma StepIsSafe(c: Config, s: State, r: Request, s': State)
    requires RampSafe(c) && Safe(c, s) && RequestOk(c, r) && Steps(c, s, r, s')
    ensures Safe(c, s')
  {
    var t, m, m' := StepFrom(c, s, r, s');
    assert Safe(c, t);
    if r.on {
      RegisteredAreOk(c, s, r, s'.limits);
      LastIsOk(c, s, s'.limits);
      ActIsSafe(c, s.(limits := s'.limits), r, GoalOf(LastOf(s'.limits)), m);
    } else {
      OffIsSafe(c, t, r, m);
    }
  }

  lemma OffIsSafe(c: Config, s: State, r: Request, m: Pid.Memory)
    requires RampSafe(c) && Safe(c, s) && RequestOk(c, r)
    ensures Safe(c, TurnOff(c, s, r, m).0)
  {
    var n := |s.limits|;
    if n == 0 {
      ActIsSafe(c, s, r, FreeGoal(c, r, None), m);
    } else {
      var rest := s.limits[..n - 1];
      assert Safe(c, s.(limits := rest));
      if n > 1 {
        LastIsOk(c, s, rest);
        ActIsSafe(c, s.(limits := rest), r, GoalOf(LastOf(rest)), m);
      } else {
        ActIsSafe(c, s.(limits := rest), r, FreeGoal(c, r, Some(s.limits[0])), m);
      }
    }
  }

  /** Every state of every run lies between min and max. */
  lemma {:induction false} RunIsSafe(c: Config, states: seq<State>, rs: seq<Request>, n: nat)
    requires RampSafe(c) && IsRun(c, states, rs) && n < |states| && Safe(c, states[0])
    requires forall k | 0 <= k < |rs| :: RequestOk(c, rs[k])
    ensures Safe(c, states[n]) && InRange(c, states[n].curr)
  {
    if n > 0 {
      RunIsSafe(c, states, rs, n - 1);
      assert Steps(c, states[n - 1], rs[n - 1], states[n - 1 + 1]);
      StepIsSafe(c, states[n - 1], rs[n - 1], states[n]);
    }
  }

  // ---- Runs of plain activations ----

  predicate Plain(r: Request) { !r.targeted && !r.hard && !r.tripPid && !r.bounded }

  /** A device as it is made. */
  ghost predicate IsNew(c: Config, s: State)
  {
    s.curr == c.min && s.pow == 0 && !s.trend && !s.lastOn && s.limits == []
  }

  function NewState(c: Config): State { State(c.min, 0, 0, false, false, 0, [], Pid.FRESH) }

  /** A forced activation by trip 0 of zone 0. */
  const PLAIN_ON := Request(0, 0, false, true, 0, 0, false, 0, false, Pid.Gains(0.0, 0.0, 0.0), true, false, 0, 0, 0)

  lemma ActKeepsLimits(c: Config, s: State, r: Request, g: Goal, m: Pid.Memory)
    ensures Act(c, s, r, g, m).0.limits == s.limits
  {
  }

  /** The list with its only holder. */
  function Alone(c: Config): seq<Limit> { [NewLimit(c, PLAIN_ON)] }

  /** What the only holder's forced activation without a target does. */
  lemma Forced(c: Config, s: State, r: Request) returns (s': State)
    requires r.on && r.force && !r.targeted && !r.bounded && NewLimit(c, r) == NewLimit(c, PLAIN_ON)
    requires s.limits == [] || s.limits == Alone(c)
    ensures Steps(c, s, r, s') && s'.limits == Alone(c)
    ensures s' == Act(c, s.(limits := Alone(c)), r, Goal(false, 0, 0, 0), Pid.FRESH).0
  {
    var ls := Alone(c);
    var t := Act(c, s.(limits := ls), r, Goal(false, 0, 0, 0), Pid.FRESH);
    s' := t.0;
    ActKeepsLimits(c, s.(limits := ls), r, Goal(false, 0, 0, 0), Pid.FRESH);
    assert [] + ls == ls;
    assert s.limits == ls ==> Holds(s.limits[0], r.zone, r.trip);
    assert Registers(c, s.limits, r, ls);
    assert Serves(c, s, Pid.FRESH, r, s', t.1);
  }

  /** A new device can be activated any number of times. */
  lemma PlainRun(c: Config, n: nat) returns (states: seq<State>, rs: seq<Request>)
    ensures IsRun(c, states, rs) && |rs| == n && states[0] == NewState(c) && forall k | 0 <= k < n :: rs[k] == PLAIN_ON
  {
    states, rs := [NewState(c)], [];
    for i := 0 to n
      invariant |rs| == i && |states| == i + 1 && states[0] == NewState(c) && (i > 0 ==> states[i].limits == Alone(c))
      invariant forall k | 0 <= k < i :: rs[k] == PLAIN_ON && Steps(c, states[k], rs[k], states[k + 1])
    {
      var s' := Forced(c, states[i], PLAIN_ON);
      states, rs := states + [s'], rs + [PLAIN_ON];
    }
  }
}
