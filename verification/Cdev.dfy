/** The cooling device as it works: fields updated in place, controllers called on the way. */
module Cdev {
  import opened Words
  import opened CoolingDevice
  import opened DeviceRuns
  import Pid

  // ---- Sorting the list ----

  function InsertBy(key: Limit -> int, x: Limit, ls: seq<Limit>): seq<Limit>
  {
    if |ls| == 0 || key(ls[|ls| - 1]) <= key(x) then ls + [x]
    else InsertBy(key, x, ls[..|ls| - 1]) + [ls[|ls| - 1]]
  }

  function SortBy(key: Limit -> int, ls: seq<Limit>): seq<Limit>
  {
    if |ls| == 0 then [] else InsertBy(key, ls[|ls| - 1], SortBy(key, ls[..|ls| - 1]))
  }

  ghost predicate Ascending(key: Limit -> int, ls: seq<Limit>)
  {
    forall i, j :: 0 <= i < j < |ls| ==> key(ls[i]) <= key(ls[j])
  }

  lemma {:induction false} InsertKeeps(key: Limit -> int, x: Limit, ls: seq<Limit>)
    requires Ascending(key, ls)
    ensures Ascending(key, InsertBy(key, x, ls)) && multiset(InsertBy(key, x, ls)) == multiset(ls) + multiset{x}
  {
    var n := |ls| - 1;
    if n >= 0 && key(ls[n]) > key(x) {
      InsertKeeps(key, x, ls[..n]);
      assert ls == ls[..n] + [ls[n]];
      var t := InsertBy(key, x, ls[..n]);
      forall l | l in t ensures key(l) <= key(ls[n]) { assert l in multiset(t); }
    }
  }

  lemma {:induction false} SortSorts(key: Limit -> int, ls: seq<Limit>)
    ensures Ascending(key, SortBy(key, ls)) && multiset(SortBy(key, ls)) == multiset(ls)
  {
    if |ls| > 0 {
      var n := |ls| - 1;
      SortSorts(key, ls[..n]);
      InsertKeeps(key, ls[n], SortBy(key, ls[..n]));
      assert ls == ls[..n] + [ls[n]];
    }
  }

  // ---- What the clamps mean ----

  /** a is at least as near to max as b, or beyond it. */
  predicate Nearer(c: Config, a: int, b: int) { if c.min <= c.max then a >= b else a <= b }

  /** x, the device's minimum and the trip's, where it has one, are all reached. */
  predicate AtOrBeyond(c: Config, y: int, x: int, lo: int)
  {
    Nearer(c, y, x) && Nearer(c, y, c.min) && (lo != 0 ==> Nearer(c, y, lo))
  }

  /** The least restrictive such state. */
  ghost predicate LeastAtOrBeyond(c: Config, y: int, x: int, lo: int)
  {
    AtOrBeyond(c, y, x, lo) && forall z | AtOrBeyond(c, z, x, lo) :: Nearer(c, z, y)
  }

  /** Neither x nor the device's maximum nor the trip's is passed. */
  predicate Within(c: Config, y: int, x: int, hi: int)
  {
    Nearer(c, x, y) && Nearer(c, c.max, y) && (hi != 0 ==> Nearer(c, hi, y))
  }

  /** The most restrictive such state. */
  ghost predicate GreatestWithin(c: Config, y: int, x: int, hi: int)
  {
    Within(c, y, x, hi) && forall z | Within(c, z, x, hi) :: Nearer(c, y, z)
  }

  class CDev {
    var minState: int
    var maxState: int
    var currState: int
    var currPow: nat
    var basePowState: int
    var incDecVal: int
    var incVal: int
    var decVal: int
    var autoDownAdjust: bool
    var debounceInterval: int
    var lastActionTime: int
    var trendIncrease: bool
    var pidEnable: bool
    const pidCtrl: Pid.Controller
    var lastOn: bool
    var limits: seq<Limit>

    constructor (min: int, max: int, ctrl: Pid.Controller)
      ensures currState == min && limits == [] && !lastOn && pidCtrl == ctrl
      ensures Conf() == Config(min, max, 1, 0, 0, false, 2, false, ctrl.Gain())
    {
      minState, maxState, currState, currPow, basePowState := min, max, min, 0, 0;
      incDecVal, incVal, decVal, autoDownAdjust, debounceInterval := 1, 0, 0, false, 2;
      lastActionTime, trendIncrease, pidEnable, pidCtrl, lastOn, limits := 0, false, false, ctrl, false, [];
    }

    ghost function Conf(): Config
      reads this, pidCtrl
    {
      Config(minState, maxState, incDecVal, incVal, decVal, autoDownAdjust, debounceInterval, pidEnable, pidCtrl.Gain())
    }

    ghost function Now(): State
      reads this, pidCtrl
    {
      State(currState, currPow, basePowState, trendIncrease, lastOn, lastActionTime, limits, pidCtrl.State())
    }

    method IntTwoPow(pow: nat) returns (p: nat)
      ensures p == Pow2(pow)
    {
      p := 1;
      for i := 0 to pow
        invariant p == Pow2(i)
      {
        p := p * 2;
      }
    }

    /** The pass-through write. */
    method SetCurrState(x: int)
      modifies this`currState
      ensures currState == x
    {
      currState := x;
    }

    method ClampStateMin(x: int, lo: int) returns (y: int)
      ensures y == ClampMin(Conf(), x, lo) && LeastAtOrBeyond(Conf(), y, x, lo)
    {
      y := x;
      if minState <= maxState {
        var m := minState;
        if lo != 0 && lo > minState { m := lo; }
        if y < m { y := m; }
        return;
      }
      var m := minState;
      if lo != 0 && lo < minState { m := lo; }
      if y > m { y := m; }
    }

    method ClampStateMax(x: int, hi: int) returns (y: int)
      ensures y == ClampMax(Conf(), x, hi) && GreatestWithin(Conf(), y, x, hi)
    {
      y := x;
      if minState <= maxState {
        var m := maxState;
        if hi != 0 && hi < maxState { m := hi; }
        if y > m { y := m; }
        return;
      }
      var m := maxState;
      if hi != 0 && hi > maxState { m := hi; }
      if y < m { y := m; }
    }

    method ClampPidOutput(out: int) returns (y: int)
      ensures y == ClampPid(Conf(), out)
    {
      y := out;
      if minState < maxState {
        if y > maxState { y := maxState; }
        if y < minState { y := minState; }
      } else {
        if y < maxState { y := maxState; }
        if y > minState { y := minState; }
      }
    }

    method LeapFrom(base: int, pow: nat) returns (x: int)
      ensures x == Leap(Conf(), base, pow)
    {
      var p := IntTwoPow(pow);
      x := Int32(base + p * (if incVal != 0 then incVal else incDecVal));
      if (incVal < 0 && base < x) || (incVal > 0 && base > x) { x := maxState; }
    }

    /** A repeated activation doubles the distance from where the ramp began. */
    method Repeat(curr: int) returns (x: int)
      modifies this`currPow, this`basePowState
      ensures basePowState == (if old(currPow) == 0 then curr else old(basePowState))
      ensures currPow == (if old(currPow) < MAX_EXPONENT then old(currPow) + 1 else old(currPow))
      ensures x == Leap(Conf(), basePowState, currPow)
    {
      if currPow == 0 { basePowState := curr; }
      if currPow < MAX_EXPONENT { currPow := currPow + 1; }
      x := LeapFrom(basePowState, currPow);
    }

    method Increase(lo: int, hi: int)
      modifies this`currState, this`currPow, this`basePowState, this`trendIncrease
      ensures Now() == RampUp(Conf(), old(Now()), lo, hi)
    {
      var curr := ClampStateMin(currState, lo);
      var x := if incVal != 0 then curr + incVal else curr + incDecVal;
      if trendIncrease {
        x := Repeat(curr);
      } else {
        currPow := 0;
      }
      x := ClampStateMax(x, hi);
      trendIncrease := true;
      SetCurrState(x);
    }

    method Decrease()
      modifies this`currState, this`currPow, this`trendIncrease
      ensures Now() == StepDown(Conf(), old(Now()))
    {
      var curr := ClampStateMax(currState, 0);
      currPow, trendIncrease := 0, false;
      var x := minState;
      if !autoDownAdjust {
        var step := decVal;
        if step == 0 { step := if minState <= maxState then incDecVal else -incDecVal; }
        if minState <= maxState && step < 0 {
          step := -step;
        } else if minState > maxState && step > 0 {
          step := -step;
        }
        x := curr - step;
      }
      x := ClampStateMin(x, 0);
      x := ClampStateMax(x, 0);
      SetCurrState(x);
    }

    method ControlBegin(r: Request)
      modifies this`lastActionTime, this`lastOn, this`currPow, this`trendIncrease, pidCtrl
      ensures Conf() == old(Conf()) && Now() == Begin(Conf(), old(Now()), r)
    {
      lastActionTime, lastOn := r.now, r.on;
      if currState == minState {
        if pidEnable { pidCtrl.Reset(); }
        currPow, trendIncrease := 0, false;
      }
    }

    /** The controller of the trip. */
    method ByTripPid(r: Request, pid: Pid.Controller)
      requires pid != pidCtrl && pid.Gain() == r.tripGains
      modifies this`currState, pid
      ensures Conf() == old(Conf()) && pid.Gain() == r.tripGains
      ensures Now() == old(Now()).(curr := PidState(Conf(), r.tripGains, old(pid.State()), r,
                                                    old(currState) - minState))
      ensures pid.State() ==
              if r.on then Pid.Next(r.tripGains, old(pid.State()), Error(r), old(currState) - minState, r.now)
              else Pid.FRESH
    {
      pid.SetTargetTemp(r.targetTemp);
      var out := pid.PidOutput(r.temperature, currState - minState, r.now);
      out := ClampPidOutput(out + minState);
      SetCurrState(out);
      if !r.on { pid.Reset(); }
    }

    /** The controller of the device. */
    method ByOwnPid(r: Request)
      modifies this`currState, pidCtrl
      ensures Conf() == old(Conf())
      ensures var c, s := Conf(), old(Now());
              Now() == s.(curr := PidState(c, c.gains, s.pid, r, 0),
                          pid := Pid.Next(c.gains, s.pid, Error(r), 0, r.now))
    {
      pidCtrl.SetTargetTemp(r.targetTemp);
      var out := pidCtrl.PidOutput(r.temperature, 0, r.now);
      out := ClampPidOutput(out + minState);
      SetCurrState(out);
    }

    /** The part of thd_cdev_set_state that acts on the device. */
    method DoAct(r: Request, g: Goal, pid: Pid.Controller)
      requires pid != pidCtrl && pid.Gain() == r.tripGains
      modifies this, pid, pidCtrl
      ensures Conf() == old(Conf()) && pid.Gain() == r.tripGains
      ensures (Now(), pid.State()) == Act(Conf(), old(Now()), r, g, old(pid.State()))
    {
      ControlBegin(r);
      if g.targeted {
        SetCurrState(g.target);
      } else if r.hard {
        SetCurrState(maxState);
      } else if r.tripPid {
        ByTripPid(r, pid);
      } else if pidEnable {
        ByOwnPid(r);
      } else if r.on {
        Increase(g.lo, g.hi);
      } else {
        Decrease();
      }
    }

    /** Adds the caller to the list unless it is there. */
    method Register(r: Request)
      modifies this`limits
      ensures Registers(Conf(), old(limits), r, limits) && |limits| > 0
    {
      var found := false;
      var i := 0;
      while i < |limits| && !found
        invariant 0 <= i <= |limits| && (found <==> i > 0 && Holds(limits[i - 1], r.zone, r.trip))
        invariant forall k | 0 <= k < i - 1 :: !Holds(limits[k], r.zone, r.trip)
        invariant !found && i > 0 ==> !Holds(limits[i - 1], r.zone, r.trip)
        decreases |limits| - i
      {
        found := limits[i].zone == r.zone && limits[i].trip == r.trip;
        i := i + 1;
      }
      if !found {
        var lo, hi := 0, 0;
        if r.bounded {
          lo := if r.lo == INVALID_TARGET || r.lo == 0 then minState else r.lo;
          hi := if r.hi == INVALID_TARGET || r.hi == 0 then maxState else r.hi;
        }
        limits := limits + [Limit(r.zone, r.trip, r.targeted, r.target, lo, hi, r.bounded)];
        SortLimits(r);
      }
    }

    method SortLimits(r: Request)
      modifies this`limits
      ensures multiset(limits) == multiset(old(limits)) && |limits| == |old(limits)|
      ensures var c := Conf();
              (r.bounded ==> Sorted((a, b) => BoundOrder(c, a, b), limits)) &&
              (!r.bounded && r.targeted ==> Sorted((a, b) => TargetOrder(c, a, b), limits)) &&
              (!r.bounded && !r.targeted ==> limits == old(limits))
    {
      if r.targeted { SortByTarget(); }
      if r.bounded { SortByBound(); }
    }

    method SortByTarget()
      modifies this`limits
      ensures multiset(limits) == multiset(old(limits)) && |limits| == |old(limits)|
      ensures var c := Conf(); Sorted((a, b) => TargetOrder(c, a, b), limits)
    {
      var lo, hi := minState, maxState;
      var key := (l: Limit) => if lo < hi then l.target else -l.target;
      SortSorts(key, limits);
      assert |multiset(limits)| == |limits| && |multiset(SortBy(key, limits))| == |SortBy(key, limits)|;
      limits := SortBy(key, limits);
    }

    method SortByBound()
      modifies this`limits
      ensures multiset(limits) == multiset(old(limits)) && |limits| == |old(limits)|
      ensures var c := Conf(); Sorted((a, b) => BoundOrder(c, a, b), limits)
    {
      var lo, hi := minState, maxState;
      var key := (l: Limit) => if lo > hi then -l.hi else l.lo;
      SortSorts(key, limits);
      assert |multiset(limits)| == |limits| && |multiset(SortBy(key, limits))| == |SortBy(key, limits)|;
      limits := SortBy(key, limits);
    }

    /** thd_cdev_set_state. */
    method SetState(r: Request, pid: Pid.Controller)
      requires pid != pidCtrl && pid.Gain() == r.tripGains
      modifies this, pid, pidCtrl
      ensures Conf() == old(Conf()) && pid.Gain() == r.tripGains
      ensures Serves(Conf(), old(Now()), old(pid.State()), r, Now(), pid.State())
    {
      if r.on {
        Activate(r, pid);
      } else {
        Deactivate(r, pid);
      }
    }

    method Activate(r: Request, pid: Pid.Controller)
      requires r.on && pid != pidCtrl && pid.Gain() == r.tripGains
      modifies this, pid, pidCtrl
      ensures Conf() == old(Conf()) && pid.Gain() == r.tripGains
      ensures Serves(Conf(), old(Now()), old(pid.State()), r, Now(), pid.State())
    {
      ghost var ls := limits;
      var first := |limits| == 0;
      Register(r);
      ActOnLast(first, r, pid, ls);
    }

    /** The last entry decides; ls is the list before the call. */
    method ActOnLast(first: bool, r: Request, pid: Pid.Controller, ghost ls: seq<Limit>)
      requires |limits| > 0 && first == (|ls| == 0) && pid != pidCtrl && pid.Gain() == r.tripGains
      modifies this, pid, pidCtrl
      ensures Conf() == old(Conf()) && pid.Gain() == r.tripGains && limits == old(limits)
      ensures (Now(), pid.State()) == TurnOn(Conf(), old(Now()).(limits := ls), r, limits, old(pid.State()))
    {
      var last := limits[|limits| - 1];
      if !first && last.targeted {
        var rel := CompareCurrent(last.target);
        if rel <= 0 { return; }
      }
      if !r.force && lastOn && r.now - lastActionTime <= debounceInterval {
        return;
      }
      DoAct(r, Goal(last.targeted, last.target, last.lo, last.hi), pid);
      ActKeepsLimits(Conf(), old(Now()), r, GoalOf(last), old(pid.State()));
    }

    method CompareCurrent(x: int) returns (rel: int)
      ensures rel == Compare(Conf(), currState, x)
      ensures rel > 0 <==> minState != maxState && !Nearer(Conf(), currState, x)
      ensures rel < 0 <==> minState != maxState && !Nearer(Conf(), x, currState)
    {
      if currState == x { return 0; }
      if minState < maxState { return if x > currState then 1 else -1; }
      if minState > maxState { return if x > currState then -1 else 1; }
      return 0;
    }

    method Deactivate(r: Request, pid: Pid.Controller)
      requires !r.on && pid != pidCtrl && pid.Gain() == r.tripGains
      modifies this, pid, pidCtrl
      ensures Conf() == old(Conf()) && pid.Gain() == r.tripGains
      ensures Serves(Conf(), old(Now()), old(pid.State()), r, Now(), pid.State())
    {
      if |limits| == 0 &&
          ((minState < maxState && currState <= minState) || (minState > maxState && currState >= minState)) {
        return;
      }
      var goal := Goal(r.targeted, r.target, 0, 0);
      if |limits| > 0 {
        var last := limits[|limits| - 1];
        var erased := last.zone == r.zone && last.trip == r.trip;
        if erased { limits := limits[..|limits| - 1]; }
        if |limits| > 0 {
          last := limits[|limits| - 1];
          goal := Goal(last.targeted, last.target, last.lo, last.hi);
          if !erased { return; }
        } else if last.targeted {
          goal := Goal(r.targeted, minState, 0, 0);
        } else if r.force {
          goal := Goal(true, minState, 0, 0);
        }
      } else {
        goal := Goal(r.force, minState, 0, 0);
      }
      DoAct(r, goal, pid);
    }

    /** thd_cdev_set_min_state. */
    method SetMinState(zone: int, trip: int, now: int)
      modifies this, pidCtrl
      ensures Conf() == old(Conf())
      ensures Steps(Conf(), old(Now()), MinRequest(Conf(), zone, trip, now), Now())
    {
      trendIncrease := false;
      ghost var s := Now();
      var unused := new Pid.Controller();
      assert Now() == s == Untrended(old(Now()));
      var r := Request(0, 0, false, false, zone, trip, true, minState, false, Pid.Gains(0.0005, 0.0001, 0.0001), true,
                       false, 0, 0, now);
      SetState(r, unused);
      assert r == MinRequest(Conf(), zone, trip, now) &&
          Serves(Conf(), Untrended(old(Now())), Pid.FRESH, r, Now(), unused.State());
    }
  }

  /** The forced release that thd_cdev_set_min_state makes. */
  function MinRequest(c: Config, zone: int, trip: int, now: int): Request
  {
    Request(0, 0, false, false, zone, trip, true, c.min, false, Pid.Gains(0.0005, 0.0001, 0.0001), true, false, 0, 0,
            now)
  }

  /** It brings a device with no other holder to min, whatever controls it. */
  lemma MinRequestReachesMin(c: Config, s: State, zone: int, trip: int, now: int, s': State)
    requires Steps(c, s, MinRequest(c, zone, trip, now), s') && InRange(c, s.curr)
    requires s.limits == [] || (|s.limits| == 1 && Holds(s.limits[0], zone, trip))
    ensures s'.limits == [] && s'.curr == c.min
  {
    var t, m, m' := StepFrom(c, s, MinRequest(c, zone, trip, now), s');
  }

  /** The caller's own controller does not make the device jump: its first call after a reset
      leaves an in-range device where it is. */
  lemma FirstPidCallKeepsState(c: Config, s: State, r: Request, g: Goal, m: Pid.Memory)
    requires InRange(c, s.curr) && r.tripPid && !r.hard && !g.targeted && r.tripGains.ki != 0.0 && m == Pid.FRESH
    ensures Act(c, s, r, g, m).0.curr == s.curr
  {
    Pid.FirstOutput(r.tripGains, Error(r), s.curr - c.min, r.now);
  }
}
