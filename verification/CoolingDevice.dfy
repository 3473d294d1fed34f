/** A cooling device shared by several holders, each a trip of a zone: what one request does
    to it. Requests carry the clock. */
module CoolingDevice {
  import opened Words
  import Pid

  /** A device runs from min to max, whichever of the two is larger. */
  datatype Config = Config(min: int, max: int, incDec: int, inc: int, dec: int, autoDown: bool, debounce: int,
                           pidEnable: bool, gains: Pid.Gains)

  datatype Limit = Limit(zone: int, trip: int, targeted: bool, target: int, lo: int, hi: int, bounded: bool)

  datatype State = State(curr: int, pow: nat, base: int, trend: bool, lastOn: bool, lastAction: int, limits: seq<Limit>,
                         pid: Pid.Memory)

  datatype Request = Request(targetTemp: int, temperature: int, hard: bool, on: bool, zone: int, trip: int,
                             targeted: bool, target: int, tripPid: bool, tripGains: Pid.Gains, force: bool,
                             bounded: bool, lo: int, hi: int, now: int)

  const INVALID_TARGET := 0x7FFF_FFFF
  const MAX_EXPONENT := 20

  // ---- Reading the state ----

  predicate InMin(c: Config, curr: int) { (c.min < c.max && curr <= c.min) || (c.min > c.max && curr >= c.min) }

  /** 1 when a is more restrictive than the current state, -1 when it is less. */
  function Compare(c: Config, curr: int, a: int): int
  {
    if curr == a || c.min == c.max then 0
    else if c.min < c.max then (if a > curr then 1 else -1)
    else (if a > curr then -1 else 1)
  }

  /** Clamps to the minimum of the device, or of the trip where it is tighter. */
  function ClampMin(c: Config, x: int, lo: int): int
  {
    if c.min <= c.max then
      var m := if lo != 0 && lo > c.min then lo else c.min;
      if x < m then m else x
    else
      var m := if lo != 0 && lo < c.min then lo else c.min;
      if x > m then m else x
  }

  function ClampMax(c: Config, x: int, hi: int): int
  {
    if c.min <= c.max then
      var m := if hi != 0 && hi < c.max then hi else c.max;
      if x > m then m else x
    else
      var m := if hi != 0 && hi > c.max then hi else c.max;
      if x < m then m else x
  }

  function ClampPid(c: Config, x: int): int
  {
    if c.min < c.max then (var y := if x > c.max then c.max else x; if y < c.min then c.min else y)
    else (var y := if x < c.max then c.max else x; if y > c.min then c.min else y)
  }

  // ---- The list of holders ----

  predicate Holds(l: Limit, zone: int, trip: int) { l.zone == zone && l.trip == trip }

  predicate Listed(ls: seq<Limit>, zone: int, trip: int) { exists i | 0 <= i < |ls| :: Holds(ls[i], zone, trip) }

  function NewLimit(c: Config, r: Request): Limit
  {
    Limit(r.zone, r.trip, r.targeted, r.target,
          if !r.bounded then 0 else if r.lo == INVALID_TARGET || r.lo == 0 then c.min else r.lo,
          if !r.bounded then 0 else if r.hi == INVALID_TARGET || r.hi == 0 then c.max else r.hi,
          r.bounded)
  }

  predicate TargetOrder(c: Config, a: Limit, b: Limit)
  {
    if c.min < c.max then a.target <= b.target else a.target >= b.target
  }

  predicate BoundOrder(c: Config, a: Limit, b: Limit) { if c.min > c.max then a.hi >= b.hi else a.lo <= b.lo }

  ghost predicate Sorted(le: (Limit, Limit) -> bool, ls: seq<Limit>)
  {
    forall i, j :: 0 <= i < j < |ls| ==> le(ls[i], ls[j])
  }

  /** ls' is the list after an activation: the caller is added unless it is there, and then
      the list is sorted, in any order of equal keys. */
  ghost predicate Registers(c: Config, ls: seq<Limit>, r: Request, ls': seq<Limit>)
  {
    if Listed(ls, r.zone, r.trip) then ls' == ls
    else
      multiset(ls') == multiset(ls + [NewLimit(c, r)]) &&
      (r.bounded ==> Sorted((a, b) => BoundOrder(c, a, b), ls')) &&
      (!r.bounded && r.targeted ==> Sorted((a, b) => TargetOrder(c, a, b), ls')) &&
      (!r.bounded && !r.targeted ==> ls' == ls + [NewLimit(c, r)])
  }

  // ---- Ramping up and stepping down ----

  function Step(c: Config): int { if c.inc != 0 then c.inc else c.incDec }

  /** The step down, always counted from max towards min. */
  function Down(c: Config): int
  {
    var step := if c.dec != 0 then c.dec else if c.min <= c.max then c.incDec else -c.incDec;
    if (c.min <= c.max && step < 0) || (c.min > c.max && step > 0) then -step else step
  }

  /** base + 2^pow * step in 32 bits, and max where that is seen to overflow. */
  function Leap(c: Config, base: int, pow: nat): int
  {
    var v := Int32(base + Pow2(pow) * Step(c));
    if (c.inc < 0 && base < v) || (c.inc > 0 && base > v) then c.max else v
  }

  function RampUp(c: Config, s: State, lo: int, hi: int): State
  {
    var curr := ClampMin(c, s.curr, lo);
    if s.trend then
      var base := if s.pow == 0 then curr else s.base;
      var pow := if s.pow < MAX_EXPONENT then s.pow + 1 else s.pow;
      s.(base := base, pow := pow, curr := ClampMax(c, Leap(c, base, pow), hi))
    else
      s.(pow := 0, trend := true, curr := ClampMax(c, curr + Step(c), hi))
  }

  function StepDown(c: Config, s: State): State
  {
    var curr := ClampMax(c, s.curr, 0);
    var v := if c.autoDown then c.min else curr - Down(c);
    s.(pow := 0, trend := false, curr := ClampMax(c, ClampMin(c, v, 0), 0))
  }

  // ---- Acting on the device ----

  /** What the list, or the caller, asks for. */
  datatype Goal = Goal(targeted: bool, target: int, lo: int, hi: int)

  /** A device at min starts afresh. */
  function Begin(c: Config, s: State, r: Request): State
  {
    var s := s.(lastAction := r.now, lastOn := r.on);
    if s.curr == c.min then s.(pow := 0, trend := false, pid := if c.pidEnable then Pid.FRESH else s.pid) else s
  }

  function Error(r: Request): int { Int32(r.temperature - r.targetTemp) }

  function PidState(c: Config, g: Pid.Gains, m: Pid.Memory, r: Request, initial: int): int
  {
    ClampPid(c, Pid.Truncate(Pid.Output(g, m, Error(r), initial, r.now)) + c.min)
  }

  /** m is the memory of the caller's own controller. */
  function Act(c: Config, s: State, r: Request, g: Goal, m: Pid.Memory): (State, Pid.Memory)
  {
    var s := Begin(c, s, r);
    if g.targeted then (s.(curr := g.target), m)
    else if r.hard then (s.(curr := c.max), m)
    else if r.tripPid then
      (s.(curr := PidState(c, r.tripGains, m, r, s.curr - c.min)),
       if r.on then Pid.Next(r.tripGains, m, Error(r), s.curr - c.min, r.now) else Pid.FRESH)
    else if c.pidEnable then
      (s.(curr := PidState(c, c.gains, s.pid, r, 0), pid := Pid.Next(c.gains, s.pid, Error(r), 0, r.now)), m)
    else if r.on then (RampUp(c, s, g.lo, g.hi), m)
    else (StepDown(c, s), m)
  }

  function LastOf(ls: seq<Limit>): Limit
    requires |ls| > 0
  {
    ls[|ls| - 1]
  }

  function GoalOf(l: Limit): Goal { Goal(l.targeted, l.target, l.lo, l.hi) }

  predicate Debounced(c: Config, s: State, r: Request) { !r.force && s.lastOn && r.now - s.lastAction <= c.debounce }

  /** ls is the list with the caller on it. */
  function TurnOn(c: Config, s: State, r: Request, ls: seq<Limit>, m: Pid.Memory): (State, Pid.Memory)
    requires |ls| > 0
  {
    var g := GoalOf(LastOf(ls));
    var enough := |s.limits| > 0 && g.targeted && Compare(c, s.curr, g.target) <= 0;
    if enough || Debounced(c, s, r) then (s.(limits := ls), m)
    else Act(c, s.(limits := ls), r, g, m)
  }

  predicate IsLast(ls: seq<Limit>, r: Request) { |ls| > 0 && Holds(LastOf(ls), r.zone, r.trip) }

  /** What a release leads to when it leaves no holder. */
  function FreeGoal(c: Config, r: Request, erased: Option<Limit>): Goal
  {
    if erased.None? then Goal(r.force, c.min, 0, 0)
    else if erased.value.targeted then Goal(r.targeted, c.min, 0, 0)
    else if r.force then Goal(true, c.min, 0, 0)
    else Goal(r.targeted, r.target, 0, 0)
  }

  function TurnOff(c: Config, s: State, r: Request, m: Pid.Memory): (State, Pid.Memory)
  {
    var n := |s.limits|;
    if n == 0 then
      if InMin(c, s.curr) then (s, m) else Act(c, s, r, FreeGoal(c, r, None), m)
    else if !IsLast(s.limits, r) then (s, m)
    else
      var rest := s.limits[..n - 1];
      Act(c, s.(limits := rest), r, if n > 1 then GoalOf(LastOf(rest)) else FreeGoal(c, r, Some(s.limits[0])), m)
  }

  /** One request to the device, from the device's state and the caller's controller to the new ones. */
  ghost predicate Serves(c: Config, s: State, m: Pid.Memory, r: Request, s': State, m': Pid.Memory)
  {
    if r.on then Registers(c, s.limits, r, s'.limits) && |s'.limits| > 0 && (s', m') == TurnOn(c, s, r, s'.limits, m)
    else (s', m') == TurnOff(c, s, r, m)
  }
}
