/** The laws of single kinds of requests: to max, within bounds, too early, back to min. */
module DeviceLaws {
  import opened Words
  import opened CoolingDevice
  import opened DeviceRuns
  import opened Arbitration
  import Pid

  // ---- MAX trips ----

  /** As near to max as any state in range. */
  ghost predicate AtMost(c: Config, x: int) { InRange(c, x) && forall y | InRange(c, y) :: AtLeast(c, x, y) }

  /** The list has no target to offer. */
  ghost predicate NoTarget(ls: seq<Limit>) { |ls| > 0 && !LastOf(ls).targeted }

  lemma HardActGoesToMax(c: Config, s: State, r: Request, g: Goal, m: Pid.Memory)
    requires r.hard && !g.targeted
    ensures AtMost(c, Act(c, s, r, g, m).0.curr)
  {
  }

  /** In every run, an activation by a MAX trip that is not debounced takes the device to max,
      unless the last entry has a target. */
  lemma HardGoesToMax(c: Config, states: seq<State>, rs: seq<Request>, n: nat)
    requires IsRun(c, states, rs) && n < |rs| && rs[n].on && rs[n].hard
    requires rs[n].force || !states[n].lastOn || rs[n].now - states[n].lastAction > c.debounce
    requires NoTarget(states[n + 1].limits)
    ensures AtMost(c, states[n + 1].curr)
  {
    var s, r, s' := states[n], rs[n], states[n + 1];
    var t, m, m' := StepFrom(c, s, r, s');
    HardActGoesToMax(c, s.(limits := s'.limits), r, GoalOf(LastOf(s'.limits)), m);
  }

  /** And so does its release, when that leaves holders without a target: MAX trips let go of
      the device at max. */
  lemma HardReleaseGoesToMax(c: Config, states: seq<State>, rs: seq<Request>, n: nat)
    requires IsRun(c, states, rs) && n < |rs| && !rs[n].on && rs[n].hard && IsLast(states[n].limits, rs[n])
    requires NoTarget(states[n + 1].limits)
    ensures AtMost(c, states[n + 1].curr)
  {
    var s, r, s' := states[n], rs[n], states[n + 1];
    var t, m, m' := StepFrom(c, s, r, s');
    LimitsAfter(c, s, r, s');
    HardActGoesToMax(c, t.(limits := s'.limits), r, GoalOf(LastOf(s'.limits)), m);
  }

  // ---- Debouncing ----

  /** An unforced activation within the interval of the last action, itself an activation,
      changes the list only. */
  lemma TooEarlyIsIgnored(c: Config, s: State, r: Request, s': State)
    requires Steps(c, s, r, s') && r.on && !r.force && s.lastOn && r.now - s.lastAction <= c.debounce
    ensures s' == s.(limits := s'.limits)
  {
    var t, m, m' := StepFrom(c, s, r, s');
  }

  /** Any number of them. */
  lemma {:induction false} EarlyActivationsAreIgnored(c: Config, states: seq<State>, rs: seq<Request>, a: nat, b: nat)
    requires IsRun(c, states, rs) && a <= b < |states| && states[a].lastOn
    requires forall k | a <= k < b :: rs[k].on && !rs[k].force && rs[k].now - states[a].lastAction <= c.debounce
    ensures states[b] == states[a].(limits := states[b].limits)
    decreases b
  {
    if a < b {
      EarlyActivationsAreIgnored(c, states, rs, a, b - 1);
      assert Steps(c, states[b - 1], rs[b - 1], states[b - 1 + 1]);
      TooEarlyIsIgnored(c, states[b - 1], rs[b - 1], states[b]);
    }
  }

  /** An action is remembered by its clock and direction. */
  lemma ActIsRemembered(c: Config, s: State, r: Request, g: Goal, m: Pid.Memory)
    ensures var s' := Act(c, s, r, g, m).0; s'.lastAction == r.now && s'.lastOn == r.on
  {
  }

  /** So of two activations without targets the second does nothing for the length of the interval
      after the first one acted. */
  lemma SecondIsIgnored(c: Config, s: State, r: Request, s': State, r': Request, s'': State)
    requires Steps(c, s, r, s') && Steps(c, s', r', s'') && r.on && r'.on && !r'.force
    requires (r.force || !s.lastOn || r.now - s.lastAction > c.debounce) && NoTarget(s'.limits)
    requires r'.now - r.now <= c.debounce
    ensures s''.curr == s'.curr
  {
    var t, m, m' := StepFrom(c, s, r, s');
    ActIsRemembered(c, s.(limits := s'.limits), r, GoalOf(LastOf(s'.limits)), m);
    TooEarlyIsIgnored(c, s', r', s'');
  }

  // ---- The last release ----

  /** Where the device goes when its only holder lets go and a target decides. */
  lemma LastReleaseGoes(c: Config, s: State, r: Request, s': State)
    requires Steps(c, s, r, s') && !r.on && |s.limits| == 1 && IsLast(s.limits, r)
    ensures s'.limits == []
    ensures s.limits[0].targeted && r.targeted ==> s'.curr == c.min
    ensures !s.limits[0].targeted && r.force ==> s'.curr == c.min
    ensures !s.limits[0].targeted && !r.force && r.targeted ==> s'.curr == r.target
  {
    var t, m, m' := StepFrom(c, s, r, s');
    ServedLimits(c, t, m, r, s', m');
  }

  /** A device that steps down automatically goes all the way. */
  lemma AutoDownGoesToMin(c: Config, s: State)
    requires c.autoDown
    ensures StepDown(c, s).curr == c.min
  {
  }

  /** A release that finds no holder leaves a device at min alone, and takes any other there when it
      is forced. */
  lemma FreeRelease(c: Config, s: State, r: Request, s': State)
    requires Steps(c, s, r, s') && !r.on && s.limits == [] && InRange(c, s.curr)
    ensures s'.limits == []
    ensures s.curr == c.min || r.force ==> s'.curr == c.min
    ensures s.curr == c.min && c.min != c.max ==> s' == s.(trend := s'.trend)
  {
    var t, m, m' := StepFrom(c, s, r, s');
  }

  // ---- Bounds of a trip ----

  /** At b, or on max's side of it. */
  predicate Reached(c: Config, a: int, b: int) { if c.min <= c.max then a >= b else a <= b }

  /** Whatever the ramp does, the state does not pass the trip's maximum; a first activation does
      not stay below its minimum either. */
  lemma RampStaysInBounds(c: Config, s: State, lo: int, hi: int)
    requires lo != 0 && hi != 0 && InRange(c, lo) && InRange(c, hi) && Reached(c, hi, lo)
    ensures Reached(c, hi, RampUp(c, s, lo, hi).curr)
    ensures !s.trend && SignOk(c) ==> Reached(c, RampUp(c, s, lo, hi).curr, lo)
  {
  }

  /** A holder that comes with bounds leaves those of the last entry deciding: the minimum nearest
      to max, or on a decreasing device the maximum nearest to max. */
  lemma LastBoundsDecide(c: Config, ls: seq<Limit>, r: Request, ls': seq<Limit>, l: Limit)
    requires Registers(c, ls, r, ls') && r.bounded && !Listed(ls, r.zone, r.trip) && l in ls'
    ensures if c.min <= c.max then LastOf(ls').lo >= l.lo else LastOf(ls').hi <= l.hi
  {
    var i :| 0 <= i < |ls'| && ls'[i] == l;
    if i < |ls'| - 1 { assert BoundOrder(c, ls'[i], ls'[|ls'| - 1]); }
  }

  /** Bounds that are not set leave the ramp as it is without them. */
  lemma UnsetBoundsAreNone(c: Config, s: State, r: Request)
    requires r.bounded && (r.lo == 0 || r.lo == 0x7FFF_FFFF) && (r.hi == 0 || r.hi == 0x7FFF_FFFF)
    ensures var l := NewLimit(c, r); RampUp(c, s, l.lo, l.hi) == RampUp(c, s, 0, 0)
  {
  }

  /** Bounds that are set are kept as they are given. */
  lemma SetBoundsAreKept(c: Config, r: Request)
    requires r.bounded && r.lo != 0 && r.lo != 0x7FFF_FFFF && r.hi != 0 && r.hi != 0x7FFF_FFFF
    ensures NewLimit(c, r).lo == r.lo && NewLimit(c, r).hi == r.hi
  {
  }

  // ---- Controllers ----

  function Distance(x: int, y: int): int { if x < y then y - x else x - y }

  /** A controller's wish becomes the state in range nearest to it. */
  lemma PidClampIsNearest(c: Config, x: int, y: int)
    requires InRange(c, y)
    ensures InRange(c, ClampPid(c, x)) && Distance(x, ClampPid(c, x)) <= Distance(x, y)
  {
  }

  /** The device's own controller starts at min, wherever the device is. */
  lemma OwnPidStartsAtMin(c: Config, s: State, r: Request, g: Goal, m: Pid.Memory)
    requires c.pidEnable && c.gains.ki != 0.0 && !g.targeted && !r.hard && !r.tripPid
    requires s.pid == Pid.FRESH || s.curr == c.min
    ensures Act(c, s, r, g, m).0.curr == c.min
  {
    Pid.FirstOutput(c.gains, Error(r), 0, r.now);
  }

  /** A release leaves the trip's controller as new, so its next activation keeps the state. */
  lemma TripPidRestarts(c: Config, s: State, r: Request, g: Goal, m: Pid.Memory)
    requires r.tripPid && !r.on && !g.targeted && !r.hard
    ensures Act(c, s, r, g, m).1 == Pid.FRESH
  {
  }

  /** A controller whose integral gain is positive drives an increasing device up from where it
      found it as long as the zone is hotter than the target, and down as long as it is cooler. */
  lemma SteadyPidDrives(c: Config, g: Pid.Gains, calls: seq<Pid.Call>, memories: seq<Pid.Memory>, r: Request, n: nat)
    requires Pid.IsRun(g, calls, memories) && g.ki > 0.0 && n < |calls| && c.min < c.max
    requires InRange(c, c.min + calls[0].initial) && r.now == calls[n].now >= calls[0].now
    requires -0x8000_0000 <= r.temperature - r.targetTemp < 0x8000_0000
    requires forall k | 0 <= k < |calls| :: calls[k].error == Error(r)
    ensures r.temperature >= r.targetTemp ==>
              PidState(c, g, memories[n], r, calls[n].initial) >= c.min + calls[0].initial
    ensures r.temperature <= r.targetTemp ==>
              PidState(c, g, memories[n], r, calls[n].initial) <= c.min + calls[0].initial
  {
    assert Error(r) == r.temperature - r.targetTemp;
    Pid.SteadySide(g, calls, memories, Error(r), n);
    ClampKeepsOrder(c, Pid.Truncate(Pid.Output(g, memories[n], Error(r), calls[n].initial, r.now)), calls[0].initial);
  }

  lemma ClampKeepsOrder(c: Config, out: int, initial: int)
    requires c.min < c.max && InRange(c, c.min + initial)
    ensures out >= initial ==> ClampPid(c, out + c.min) >= c.min + initial
    ensures out <= initial ==> ClampPid(c, out + c.min) <= c.min + initial
  {
  }
}
