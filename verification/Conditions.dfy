/** The adaptive conditions of the data vault: sets of conditions, tried in order; the first
    set whose conditions all pass names the target. A condition may ask that its predicate
    have held for some time. */
module Conditions {
  import opened Words

  /** What a condition reads when it is evaluated, and the clock at that moment. */
  datatype World = World(odvp: nat -> Option<int>, temperature: string -> Option<int>, lidOpen: int, tablet: bool,
                         onBattery: bool, powerSlider: int, now: int)

  /** The readings of one pass over all sets: those found by condition j of set i. */
  type Env = (nat, nat) -> World

  datatype Condition = Condition(kind: nat, device: string, comparison: nat, argument: int, timeComparison: nat,
                                 time: int, target: int, ignore: bool, entry: int)

  const DEFAULT := 1
  const MOTION := 4
  const WORKLOAD := 6
  const POWER_SOURCE := 8
  const LID_STATE := 10
  const PLATFORM_TYPE := 11
  const TEMPERATURE := 17
  const OEM0 := 19
  const OEM5 := 24
  const TEMPERATURE_WITHOUT_HYSTERESIS := 48
  const POWER_SLIDER := 56
  const OS_TYPE := 86

  const EQUAL := 1
  const LESSER_OR_EQUAL := 2
  const GREATER_OR_EQUAL := 3
  const NOT_EQUAL := 4

  predicate Compare(comparison: nat, value: int, argument: int)
  {
    (comparison == EQUAL && value == argument) || (comparison == LESSER_OR_EQUAL && value <= argument) ||
    (comparison == GREATER_OR_EQUAL && value >= argument) || (comparison == NOT_EQUAL && value != argument)
  }

  /** How a value stands to an argument. */
  datatype Order = Less | Same | More

  function OrderOf(value: int, argument: int): Order
  {
    if value < argument then Less else if value > argument then More else Same
  }

  /** The orders that each comparison code accepts. */
  function Accepted(code: nat): set<Order>
  {
    match code
    case 1 => {Same}
    case 2 => {Less, Same}
    case 3 => {Same, More}
    case 4 => {Less, More}
    case _ => {}
  }

  /** compare_time: the time since the predicate began to hold, as an int. */
  predicate CompareTime(c: Condition, now: int)
  {
    Compare(c.timeComparison, Int32(now - c.entry), c.time)
  }

  /** The sensor name is what follows the last dot. */
  function AfterDot(s: string): string
  {
    if |s| == 0 || s[|s| - 1] == '.' then [] else AfterDot(s[..|s| - 1]) + [s[|s| - 1]]
  }

  function TruncDiv100(v: int): int { if v >= 0 then v / 100 else -(-v / 100) }

  /** The value the comparison is made with; None where there is none to read. */
  function Sensed(c: Condition, w: World): Option<int>
  {
    if c.kind == OS_TYPE || c.kind == WORKLOAD then Some(3)
    else if OEM0 <= c.kind <= OEM5 then w.odvp(c.kind - OEM0)
    else if 0x1000 <= c.kind < 0x1_0000 then w.odvp(c.kind - 0x1000 + 6)
    else if c.kind == TEMPERATURE || c.kind == TEMPERATURE_WITHOUT_HYSTERESIS || c.kind == 0 then
      if c.ignore then None
      else
        var t :- w.temperature(AfterDot(c.device));
        Some(TruncDiv100(t) + 2732)
    else if c.kind == LID_STATE then Some(w.lidOpen)
    else if c.kind == POWER_SOURCE then Some(if w.onBattery then 1 else 0)
    else if c.kind == PLATFORM_TYPE then Some(if w.tablet then 2 else 1)
    else if c.kind == POWER_SLIDER then Some(w.powerSlider)
    else None
  }

  /** The condition's predicate, without its time. */
  predicate Holds(c: Condition, w: World)
  {
    c.kind == DEFAULT || (c.kind == MOTION && c.argument == 0) ||
    (Sensed(c, w).Some? && Compare(c.comparison, Sensed(c, w).value, c.argument))
  }

  predicate Timed(c: Condition, current: int)
  {
    c.kind != DEFAULT && c.target != current && c.time != 0
  }

  predicate Passes(c: Condition, current: int, w: World)
  {
    Holds(c, w) && (Timed(c, current) ==> c.entry != 0 && CompareTime(c, w.now))
  }

  /** The entry time after an evaluation. */
  function EntryAfter(c: Condition, current: int, w: World): int
  {
    if c.kind == DEFAULT then c.entry
    else if !Holds(c, w) then 0
    else if !Timed(c, current) then c.entry
    else if c.entry == 0 then w.now
    else if CompareTime(c, w.now) then 0
    else c.entry
  }

  // ---- One pass over the sets ----

  datatype State = State(sets: seq<seq<Condition>>, current: int)

  ghost predicate NonEmpty(sets: seq<seq<Condition>>) { forall i :: 0 <= i < |sets| ==> |sets[i]| > 0 }

  predicate PassesAt(s: State, env: Env, i: nat, j: nat)
    requires i < |s.sets| && j < |s.sets[i]|
  {
    Passes(s.sets[i][j], s.current, env(i, j))
  }

  predicate SetPasses(s: State, env: Env, i: nat)
    requires i < |s.sets|
  {
    forall j | 0 <= j < |s.sets[i]| :: PassesAt(s, env, i, j)
  }

  /** A condition is evaluated when no earlier set passes and all before it in its set do. */
  predicate Reached(s: State, env: Env, i: nat, j: nat)
    requires i < |s.sets| && j < |s.sets[i]|
  {
    (forall k | 0 <= k < i :: !SetPasses(s, env, k)) && (forall k | 0 <= k < j :: PassesAt(s, env, i, k))
  }

  function ConditionAfter(s: State, env: Env, i: nat, j: nat): Condition
    requires i < |s.sets| && j < |s.sets[i]|
  {
    var c := s.sets[i][j];
    if Reached(s, env, i, j) then c.(entry := EntryAfter(c, s.current, env(i, j))) else c
  }

  function SetAfter(s: State, env: Env, i: nat): (r: seq<Condition>)
    requires i < |s.sets|
  {
    seq(|s.sets[i]|, j requires 0 <= j < |s.sets[i]| => ConditionAfter(s, env, i, j))
  }

  /** The first passing set from k on, or the number of sets. */
  function FirstPassing(s: State, env: Env, k: nat): (r: nat)
    requires k <= |s.sets|
    ensures k <= r <= |s.sets| && (r < |s.sets| ==> SetPasses(s, env, r))
    ensures forall i :: k <= i < r ==> !SetPasses(s, env, i)
    decreases |s.sets| - k
  {
    if k == |s.sets| || SetPasses(s, env, k) then k else FirstPassing(s, env, k + 1)
  }

  function Target(s: State, env: Env): int
    requires NonEmpty(s.sets)
  {
    var r := FirstPassing(s, env, 0);
    if r < |s.sets| then s.sets[r][0].target else -1
  }

  function Round(s: State, env: Env): (s': State)
    requires NonEmpty(s.sets)
    ensures NonEmpty(s'.sets)
  {
    var r := FirstPassing(s, env, 0);
    State(seq(|s.sets|, i requires 0 <= i < |s.sets| => SetAfter(s, env, i)),
          if r < |s.sets| then s.sets[r][0].target else s.current)
  }

  /** The evaluator as it works, condition by condition and set by set. */
  class Evaluator {
    var conditions: seq<seq<Condition>>
    var current: int

    constructor (sets: seq<seq<Condition>>)
      ensures conditions == sets && current == -1
    {
      conditions, current := sets, -1;
    }

    ghost function Now(): State reads this { State(conditions, current) }

    method EvaluateCondition(i: nat, j: nat, w: World) returns (ok: bool)
      requires i < |conditions| && j < |conditions[i]|
      modifies this`conditions
      ensures var c := old(conditions)[i][j];
              ok == Passes(c, current, w) &&
              conditions == old(conditions)[i := old(conditions)[i][j := c.(entry := EntryAfter(c, current, w))]]
    {
      var c := conditions[i][j];
      assert conditions[i][j := c] == conditions[i] && conditions[i := conditions[i]] == conditions;
      if c.kind == DEFAULT {
        return true;
      }
      ok := EvaluatePredicate(c, w);
      if ok {
        if c.target == current {
          return;
        }
        if c.time != 0 {
          if c.entry == 0 {
            SetEntry(i, j, w.now);
            return false;
          } else {
            ok := CompareElapsed(c, w.now);
            if ok {
              SetEntry(i, j, 0);
            }
          }
        }
      } else {
        SetEntry(i, j, 0);
      }
    }

    /** The tests by kind, each of which may set the result. */
    method EvaluatePredicate(c: Condition, w: World) returns (ok: bool)
      requires c.kind != DEFAULT
      ensures ok == Holds(c, w)
    {
      ok := false;
      if c.kind == OS_TYPE { ok := CompareCondition(c, 3); }
      if OEM0 <= c.kind <= OEM5 || 0x1000 <= c.kind < 0x1_0000 { ok := EvaluateOem(c, w); }
      if c.kind == TEMPERATURE || c.kind == TEMPERATURE_WITHOUT_HYSTERESIS || c.kind == 0 {
        ok := EvaluateTemperature(c, w);
      }
      if c.kind == LID_STATE { ok := CompareCondition(c, w.lidOpen); }
      if c.kind == POWER_SOURCE { ok := CompareCondition(c, if w.onBattery then 1 else 0); }
      if c.kind == WORKLOAD { ok := CompareCondition(c, 3); }
      if c.kind == PLATFORM_TYPE { ok := CompareCondition(c, if w.tablet then 2 else 1); }
      if c.kind == POWER_SLIDER { ok := CompareCondition(c, w.powerSlider); }
      if c.kind == MOTION && c.argument == 0 { ok := true; }
    }

    method CompareCondition(c: Condition, value: int) returns (ok: bool)
      ensures ok <==> OrderOf(value, c.argument) in Accepted(c.comparison)
      ensures ok == Compare(c.comparison, value, c.argument)
    {
      match c.comparison
      case 1 => ok := value == c.argument;
      case 2 => ok := value <= c.argument;
      case 3 => ok := value >= c.argument;
      case 4 => ok := value != c.argument;
      case _ => ok := false;
    }

    /** compare_time. */
    method CompareElapsed(c: Condition, now: int) returns (ok: bool)
      ensures ok <==> OrderOf(Int32(now - c.entry), c.time) in Accepted(c.timeComparison)
      ensures ok == CompareTime(c, now)
    {
      var elapsed := Int32(now - c.entry);
      match c.timeComparison
      case 1 => ok := elapsed == c.time;
      case 2 => ok := elapsed <= c.time;
      case 3 => ok := elapsed >= c.time;
      case 4 => ok := elapsed != c.time;
      case _ => ok := false;
    }

    /** Platform variables 0 to 5 have kinds of their own; the others follow from 0x1000 on. */
    method EvaluateOem(c: Condition, w: World) returns (ok: bool)
      requires OEM0 <= c.kind <= OEM5 || 0x1000 <= c.kind < 0x1_0000
      ensures ok == Holds(c, w)
    {
      var index := if c.kind <= OEM5 then c.kind - OEM0 else c.kind - 0x1000 + 6;
      match w.odvp(index)
      case None => ok := false;
      case Some(value) => ok := CompareCondition(c, value);
    }

    method EvaluateTemperature(c: Condition, w: World) returns (ok: bool)
      requires c.kind == TEMPERATURE || c.kind == TEMPERATURE_WITHOUT_HYSTERESIS || c.kind == 0
      ensures ok == Holds(c, w)
    {
      if c.ignore {
        return false;
      }
      match w.temperature(AfterDot(c.device))
      case None => ok := false;
      case Some(value) => ok := CompareCondition(c, TruncDiv100(value) + 2732);
    }

    method SetEntry(i: nat, j: nat, time: int)
      requires i < |conditions| && j < |conditions[i]|
      modifies this`conditions
      ensures conditions == old(conditions)[i := old(conditions)[i][j := old(conditions)[i][j].(entry := time)]]
    {
      conditions := conditions[i := conditions[i][j := conditions[i][j].(entry := time)]];
    }

    /** s is the state at the start of the pass; set i is still as it was there. */
    method EvaluateConditionSet(i: nat, env: Env, ghost s: State) returns (ok: bool)
      requires i < |conditions| == |s.sets| && conditions[i] == s.sets[i] && current == s.current
      requires forall k | 0 <= k < i :: !SetPasses(s, env, k)
      modifies this`conditions
      ensures ok == SetPasses(s, env, i)
      ensures conditions == old(conditions)[i := SetAfter(s, env, i)]
    {
      var n := |conditions[i]|;
      for j := 0 to n
        invariant |conditions| == |s.sets| && |conditions[i]| == n
        invariant forall k | 0 <= k < |conditions| && k != i :: conditions[k] == old(conditions)[k]
        invariant forall k | 0 <= k < j :: PassesAt(s, env, i, k) && conditions[i][k] == ConditionAfter(s, env, i, k)
        invariant forall k | j <= k < n :: conditions[i][k] == s.sets[i][k]
      {
        assert Reached(s, env, i, j);
        ok := EvaluateCondition(i, j, env(i, j));
        assert ok == PassesAt(s, env, i, j) && conditions[i][j] == ConditionAfter(s, env, i, j);
        if !ok {
          forall k | j < k < n ensures conditions[i][k] == ConditionAfter(s, env, i, k) {
            assert !Reached(s, env, i, k);
          }
          assert conditions[i] == SetAfter(s, env, i);
          return;
        }
      }
      ok := true;
      assert conditions[i] == SetAfter(s, env, i);
    }

    method EvaluateConditions(env: Env) returns (target: int)
      requires NonEmpty(conditions)
      modifies this
      ensures target == Target(old(Now()), env) && Now() == Round(old(Now()), env)
    {
      target := -1;
      ghost var s := Now();
      for i := 0 to |conditions|
        invariant |conditions| == |s.sets| && current == s.current && target == -1
        invariant forall k | 0 <= k < i :: !SetPasses(s, env, k) && conditions[k] == SetAfter(s, env, k)
        invariant forall k | i <= k < |conditions| :: conditions[k] == s.sets[k]
      {
        var ok := EvaluateConditionSet(i, env, s);
        if ok {
          NotReached(s, env, i);
          FirstIs(s, env, i);
          target := conditions[i][0].target;
          current := target;
          assert conditions == Round(s, env).sets;
          return;
        }
      }
      assert conditions == Round(s, env).sets;
    }
  }

  lemma FirstIs(s: State, env: Env, i: nat)
    requires i < |s.sets| && SetPasses(s, env, i) && forall k | 0 <= k < i :: !SetPasses(s, env, k)
    ensures FirstPassing(s, env, 0) == i
  {
  }

  /** Nothing behind a passing set is looked at. */
  lemma NotReached(s: State, env: Env, i: nat)
    requires i < |s.sets| && SetPasses(s, env, i)
    ensures forall k | i < k < |s.sets| :: SetAfter(s, env, k) == s.sets[k]
  {
    forall k | i < k < |s.sets| ensures SetAfter(s, env, k) == s.sets[k] {
      forall j | 0 <= j < |s.sets[k]| ensures SetAfter(s, env, k)[j] == s.sets[k][j] {
        assert !Reached(s, env, k, j);
      }
    }
  }

  // ---- One condition over its evaluations ----

  /** What a pass is for one condition: whether it is evaluated, and with what. */
  datatype Look = Look(evaluated: bool, current: int, world: World)

  function After(c: Condition, l: Look): Condition
  {
    if l.evaluated then c.(entry := EntryAfter(c, l.current, l.world)) else c
  }

  function Tracked(c: Condition, looks: seq<Look>, n: nat): (r: Condition)
    requires n <= |looks|
    ensures r.(entry := c.entry) == c
  {
    if n == 0 then c else After(Tracked(c, looks, n - 1), looks[n - 1])
  }

  /** Look m evaluated the condition, and every evaluation from there to look n found its predicate true. */
  ghost predicate HeldSince(c: Condition, looks: seq<Look>, m: nat, n: nat)
    requires n <= |looks|
  {
    m < n && looks[m].evaluated && forall k | m <= k < n :: looks[k].evaluated ==> Holds(c, looks[k].world)
  }

  /** The clock runs forward and is never 0. */
  ghost predicate Forward(looks: seq<Look>)
  {
    (forall n | 0 <= n < |looks| :: looks[n].world.now > 0) &&
    forall m, n | 0 <= m <= n < |looks| :: looks[m].world.now <= looks[n].world.now
  }

  lemma HoldsAnyEntry(c: Condition, entry: int, w: World)
    ensures Holds(c.(entry := entry), w) == Holds(c, w)
  {
  }

  /** An entry time is that of an evaluation since which the predicate never failed. */
  lemma {:induction false} EntryMeansHeld(c: Condition, looks: seq<Look>, n: nat)
    requires n <= |looks| && c.entry == 0 && c.kind != DEFAULT
    ensures var e := Tracked(c, looks, n).entry;
            e == 0 || exists m | 0 <= m < n :: HeldSince(c, looks, m, n) && e == looks[m].world.now
  {
    if n > 0 {
      EntryMeansHeld(c, looks, n - 1);
      var b, e := Tracked(c, looks, n - 1), Tracked(c, looks, n).entry;
      HoldsAnyEntry(c, b.entry, looks[n - 1].world);
      if e != 0 {
        if b.entry == 0 {
          assert HeldSince(c, looks, n - 1, n);
        } else {
          var m :| 0 <= m < n - 1 && HeldSince(c, looks, m, n - 1) && b.entry == looks[m].world.now;
          assert HeldSince(c, looks, m, n);
        }
      }
    }
  }

  /** A condition of another target that asks for at least some time passes only when its
      predicate held at each of its evaluations for at least that time. */
  lemma PassingHasLasted(c: Condition, looks: seq<Look>, n: nat)
    requires n < |looks| && c.entry == 0 && Forward(looks) && looks[n].evaluated
    requires Timed(c, looks[n].current) && c.timeComparison == GREATER_OR_EQUAL
    requires Passes(Tracked(c, looks, n), looks[n].current, looks[n].world)
    ensures exists m | 0 <= m < n :: HeldSince(c, looks, m, n + 1) && looks[n].world.now - looks[m].world.now >= c.time
  {
    EntryMeansHeld(c, looks, n);
    var b := Tracked(c, looks, n);
    HoldsAnyEntry(c, b.entry, looks[n].world);
    var m :| 0 <= m < n && HeldSince(c, looks, m, n) && b.entry == looks[m].world.now;
    assert HeldSince(c, looks, m, n + 1);
  }

  /** Evaluated by each of the looks m to n - 1, its predicate true, without passing. */
  ghost predicate Waiting(c: Condition, looks: seq<Look>, m: nat, n: nat)
    requires n <= |looks|
  {
    forall k | m <= k < n :: looks[k].evaluated && Timed(c, looks[k].current) && Holds(c, looks[k].world) &&
                             !Passes(Tracked(c, looks, k), looks[k].current, looks[k].world)
  }

  lemma WaitStep(c: Condition, entry: int, l: Look)
    requires l.evaluated && Timed(c, l.current) && Holds(c, l.world) && !Passes(c.(entry := entry), l.current, l.world)
    ensures After(c.(entry := entry), l).entry == if entry == 0 then l.world.now else entry
  {
  }

  lemma PassStep(c: Condition, entry: int, l: Look)
    requires Timed(c, l.current) && Holds(c, l.world) && c.timeComparison == GREATER_OR_EQUAL
    requires entry != 0 && c.time <= l.world.now - entry && 0 <= l.world.now - entry < 0x8000_0000
    ensures Passes(c.(entry := entry), l.current, l.world)
  {
  }

  /** The entry time is the clock of some look up to m. */
  ghost predicate EnteredBy(e: int, looks: seq<Look>, m: nat)
    requires m < |looks|
  {
    exists k | 0 <= k <= m :: e == looks[k].world.now
  }

  lemma WaitBegins(c: Condition, looks: seq<Look>, m: nat)
    requires c.entry == 0 && m < |looks| && Waiting(c, looks, m, m + 1)
    ensures EnteredBy(Tracked(c, looks, m + 1).entry, looks, m)
  {
    var b := Tracked(c, looks, m);
    assert c.(entry := b.entry) == b;
    WaitStep(c, b.entry, looks[m]);
    EntryMeansHeld(c, looks, m);
  }

  lemma {:induction false} EntryWaits(c: Condition, looks: seq<Look>, m: nat, n: nat)
    requires c.entry == 0 && m < n <= |looks| && Forward(looks) && Waiting(c, looks, m, n)
    ensures EnteredBy(Tracked(c, looks, n).entry, looks, m)
    decreases n
  {
    if n == m + 1 {
      WaitBegins(c, looks, m);
    } else {
      EntryWaits(c, looks, m, n - 1);
      var b := Tracked(c, looks, n - 1);
      assert c.(entry := b.entry) == b;
      WaitStep(c, b.entry, looks[n - 1]);
    }
  }

  /** Conversely, a predicate that stays true for the time asked makes the condition pass by then. */
  lemma LastingPasses(c: Condition, looks: seq<Look>, m: nat, n: nat)
    requires c.entry == 0 && m < n < |looks| && Forward(looks) && looks[n].world.now - looks[0].world.now < 0x8000_0000
    requires c.timeComparison == GREATER_OR_EQUAL && looks[n].world.now - looks[m].world.now >= c.time
    requires forall k | m <= k <= n :: looks[k].evaluated && Timed(c, looks[k].current) && Holds(c, looks[k].world)
    ensures exists k | m <= k <= n :: Passes(Tracked(c, looks, k), looks[k].current, looks[k].world)
  {
    if Waiting(c, looks, m, n) {
      EntryWaits(c, looks, m, n);
      var b := Tracked(c, looks, n);
      assert c.(entry := b.entry) == b;
      PassStep(c, b.entry, looks[n]);
      assert Passes(Tracked(c, looks, n), looks[n].current, looks[n].world);
    }
  }

  // ---- Whole runs ----

  /** states[k] is the state before pass k, envs[k] what that pass finds. */
  ghost predicate IsRun(states: seq<State>, envs: seq<Env>)
  {
    |states| == |envs| + 1 && (forall k | 0 <= k < |states| :: NonEmpty(states[k].sets)) &&
    forall k | 0 <= k < |envs| :: states[k + 1] == Round(states[k], envs[k])
  }

  /** Pass k as condition j of set i sees it. */
  function LookAt(t: State, env: Env, i: nat, j: nat): Look
    requires i < |t.sets| && j < |t.sets[i]|
  {
    Look(Reached(t, env, i, j), t.current, env(i, j))
  }

  ghost predicate Has(t: State, i: nat, j: nat) { i < |t.sets| && j < |t.sets[i]| }

  lemma OnePass(t: State, env: Env, i: nat, j: nat)
    requires NonEmpty(t.sets) && Has(t, i, j)
    ensures Has(Round(t, env), i, j) && Round(t, env).sets[i][j] == After(t.sets[i][j], LookAt(t, env, i, j))
  {
  }

  /** The looks of a run at condition j of set i. */
  ghost predicate AreLooks(states: seq<State>, envs: seq<Env>, i: nat, j: nat, looks: seq<Look>)
  {
    |states| == |envs| + 1 && |looks| == |envs| &&
    forall k | 0 <= k < |envs| :: Has(states[k], i, j) && looks[k] == LookAt(states[k], envs[k], i, j)
  }

  lemma {:induction false} LooksExist(states: seq<State>, envs: seq<Env>, i: nat, j: nat) returns (looks: seq<Look>)
    requires IsRun(states, envs) && Has(states[0], i, j)
    ensures AreLooks(states, envs, i, j, looks) && forall k | 0 <= k < |states| :: Has(states[k], i, j)
  {
    looks := [];
    for n := 0 to |envs|
      invariant |looks| == n && forall k | 0 <= k <= n :: Has(states[k], i, j)
      invariant forall k | 0 <= k < n :: looks[k] == LookAt(states[k], envs[k], i, j)
    {
      OnePass(states[n], envs[n], i, j);
      looks := looks + [LookAt(states[n], envs[n], i, j)];
    }
  }

  /** In every run, each condition of the evaluator is the one tracked through its looks: other
      conditions and sets only decide when it is looked at. */
  lemma {:induction false} RunTracks(states: seq<State>, envs: seq<Env>, n: nat, i: nat, j: nat, looks: seq<Look>)
    requires IsRun(states, envs) && n < |states| && Has(states[0], i, j) && AreLooks(states, envs, i, j, looks)
    ensures Has(states[n], i, j) && states[n].sets[i][j] == Tracked(states[0].sets[i][j], looks, n)
  {
    if n > 0 {
      RunTracks(states, envs, n - 1, i, j, looks);
      OnePass(states[n - 1], envs[n - 1], i, j);
      assert states[n - 1 + 1] == Round(states[n - 1], envs[n - 1]);
    }
  }

  /** The clock that condition j of set i sees runs forward and is never 0. */
  ghost predicate ClockForward(envs: seq<Env>, i: nat, j: nat)
  {
    (forall n | 0 <= n < |envs| :: envs[n](i, j).now > 0) &&
    forall m, n | 0 <= m <= n < |envs| :: envs[m](i, j).now <= envs[n](i, j).now
  }

  /** When a pass names a target, every lasting condition of the set that named it had held for
      its time, at each of its evaluations since some earlier pass m. */
  lemma NamedTargetHasLasted(states: seq<State>, envs: seq<Env>, n: nat, r: nat, j: nat)
    returns (looks: seq<Look>, m: nat)
    requires IsRun(states, envs) && n < |envs| && Has(states[0], r, j) && ClockForward(envs, r, j)
    requires r == FirstPassing(states[n], envs[n], 0)
    requires var c := states[0].sets[r][j];
             c.entry == 0 && Timed(c, states[n].current) && c.timeComparison == GREATER_OR_EQUAL
    ensures AreLooks(states, envs, r, j, looks) && m < n
    ensures var c := states[0].sets[r][j];
            HeldSince(c, looks, m, n + 1) && envs[n](r, j).now - envs[m](r, j).now >= c.time
  {
    looks := LooksExist(states, envs, r, j);
    var c, t := states[0].sets[r][j], states[n];
    LooksForward(states, envs, r, j, looks);
    RunTracks(states, envs, n, r, j, looks);
    assert SetPasses(t, envs[n], r) && PassesAt(t, envs[n], r, j);
    ReachedWhenFirst(t, envs[n], r, j);
    PassingHasLasted(c, looks, n);
    m :| 0 <= m < n && HeldSince(c, looks, m, n + 1) && looks[n].world.now - looks[m].world.now >= c.time;
    assert looks[m] == LookAt(states[m], envs[m], r, j);
  }

  lemma LooksForward(states: seq<State>, envs: seq<Env>, i: nat, j: nat, looks: seq<Look>)
    requires AreLooks(states, envs, i, j, looks) && ClockForward(envs, i, j)
    ensures Forward(looks)
  {
    forall n | 0 <= n < |looks| ensures looks[n].world == envs[n](i, j)
    {
      assert looks[n] == LookAt(states[n], envs[n], i, j);
    }
  }

  lemma ReachedWhenFirst(t: State, env: Env, r: nat, j: nat)
    requires Has(t, r, j) && r == FirstPassing(t, env, 0)
    ensures Reached(t, env, r, j)
  {
  }

  // ---- The current target stays ----

  /** Set q is of target t, its predicates all hold, and no passing set of another target is before it. */
  ghost predicate SupportedBy(s: State, env: Env, t: int, q: nat)
    requires NonEmpty(s.sets) && q < |s.sets|
  {
    (forall j | 0 <= j < |s.sets[q]| :: s.sets[q][j].target == t && Holds(s.sets[q][j], env(q, j))) &&
    (forall i | 0 <= i < q && SetPasses(s, env, i) :: s.sets[i][0].target == t)
  }

  lemma CurrentIsKept(s: State, env: Env, q: nat)
    requires NonEmpty(s.sets) && q < |s.sets| && SupportedBy(s, env, s.current, q)
    ensures Target(s, env) == s.current && Round(s, env).current == s.current
  {
    forall j | 0 <= j < |s.sets[q]| ensures PassesAt(s, env, q, j) { }
    assert SetPasses(s, env, q);
    var r := FirstPassing(s, env, 0);
    assert r <= q && SetPasses(s, env, r);
  }

  ghost predicate Supported(s: State, env: Env, t: int)
    requires NonEmpty(s.sets)
  {
    exists q | 0 <= q < |s.sets| :: SupportedBy(s, env, t, q)
  }

  /** Once current, a target is returned by every pass of a run that supports it. */
  lemma {:induction false} TargetStays(states: seq<State>, envs: seq<Env>, t: int, n: nat)
    requires IsRun(states, envs) && n <= |envs| && states[0].current == t
    requires forall k | 0 <= k < n :: Supported(states[k], envs[k], t)
    ensures states[n].current == t && forall k | 0 <= k < n :: Target(states[k], envs[k]) == t
  {
    if n > 0 {
      TargetStays(states, envs, t, n - 1);
      var s := states[n - 1];
      assert Supported(s, envs[n - 1], t);
      var q :| 0 <= q < |s.sets| && SupportedBy(s, envs[n - 1], t, q);
      CurrentIsKept(s, envs[n - 1], q);
      assert states[n - 1 + 1] == Round(s, envs[n - 1]);
    }
  }

  /** A pass returns the target of the set that passes with no passing set before it. */
  lemma FirstMatchNames(s: State, env: Env, r: nat)
    requires NonEmpty(s.sets) && r < |s.sets| && SetPasses(s, env, r) && forall i | 0 <= i < r :: !SetPasses(s, env, i)
    ensures Target(s, env) == Round(s, env).current == s.sets[r][0].target
  {
    FirstIs(s, env, r);
  }

  lemma NoMatchKeeps(s: State, env: Env)
    requires NonEmpty(s.sets) && forall i | 0 <= i < |s.sets| :: !SetPasses(s, env, i)
    ensures Target(s, env) == -1 && Round(s, env).current == s.current
  {
  }

  ghost predicate Matches(s: State, env: Env) { exists i | 0 <= i < |s.sets| :: SetPasses(s, env, i) }

  /** No pass from a to n - 1 matched. */
  ghost predicate Unmatched(states: seq<State>, envs: seq<Env>, a: nat, n: nat)
    requires n <= |envs| < |states|
  {
    forall k | a <= k < n :: !Matches(states[k], envs[k])
  }

  /** Pass k returned t, and no later pass before n matched. */
  ghost predicate MatchedLast(states: seq<State>, envs: seq<Env>, k: nat, n: nat, t: int)
    requires k < n <= |envs| < |states| && NonEmpty(states[k].sets)
  {
    Matches(states[k], envs[k]) && t == Target(states[k], envs[k]) && Unmatched(states, envs, k + 1, n)
  }

  /** Before every pass of every run, the current target is the one that the latest matching
      pass returned, or the initial one when none has matched. */
  lemma {:induction false} CurrentIsLatestMatch(states: seq<State>, envs: seq<Env>, n: nat)
    requires IsRun(states, envs) && n < |states|
    ensures (Unmatched(states, envs, 0, n) && states[n].current == states[0].current) ||
            exists k | 0 <= k < n :: MatchedLast(states, envs, k, n, states[n].current)
  {
    if n > 0 {
      var l := n - 1;
      CurrentIsLatestMatch(states, envs, l);
      PassCurrent(states, envs, l);
      if Matches(states[l], envs[l]) {
        assert MatchedLast(states, envs, l, n, states[n].current);
      } else if k :| 0 <= k < l && MatchedLast(states, envs, k, l, states[l].current) {
        assert MatchedLast(states, envs, k, n, states[n].current);
      }
    }
  }

  lemma PassCurrent(states: seq<State>, envs: seq<Env>, l: nat)
    requires IsRun(states, envs) && l < |envs|
    ensures NonEmpty(states[l].sets)
    ensures states[l + 1].current ==
            if Matches(states[l], envs[l]) then Target(states[l], envs[l]) else states[l].current
  {
    var s, env := states[l], envs[l];
    if Matches(s, env) { MatchBecomesCurrent(s, env); } else { NoMatchKeeps(s, env); }
  }

  lemma MatchBecomesCurrent(s: State, env: Env)
    requires NonEmpty(s.sets) && Matches(s, env)
    ensures Round(s, env).current == Target(s, env)
  {
  }
}
