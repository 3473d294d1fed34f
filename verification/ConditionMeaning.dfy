/** What conditions mean, kind by kind and code by code. */
module ConditionMeaning {
  import opened Words
  import opened Conditions

  // ---- Sensor names ----

  predicate NoDot(s: string) { forall i :: 0 <= i < |s| ==> s[i] != '.' }

  /** The sensor is what follows the last dot, or the whole name. */
  lemma {:induction false} SensorName(a: string, b: string)
    requires NoDot(b)
    ensures AfterDot(a + "." + b) == b && AfterDot(b) == b
  {
    if |b| == 0 {
      assert a + "." + b == a + ".";
    } else {
      var n := |b| - 1;
      SensorName(a, b[..n]);
      assert (a + "." + b)[..|a| + 1 + n] == a + "." + b[..n] && b == b[..n] + [b[n]];
    }
  }

  // ---- Readings ----

  /** The reading behind each kind of condition. */
  function Reading(c: Condition, w: World): Option<int>
  {
    match c.kind
    case 0 => DeciKelvins(c, w)
    case 6 => Some(3)
    case 8 => Some(B(w.onBattery))
    case 10 => Some(w.lidOpen)
    case 11 => Some(1 + B(w.tablet))
    case 17 => DeciKelvins(c, w)
    case 19 => w.odvp(0)
    case 20 => w.odvp(1)
    case 21 => w.odvp(2)
    case 22 => w.odvp(3)
    case 23 => w.odvp(4)
    case 24 => w.odvp(5)
    case 48 => DeciKelvins(c, w)
    case 56 => Some(w.powerSlider)
    case 86 => Some(3)
    case k => if 4096 <= k <= 65535 then w.odvp(k - 4090) else None
  }

  function B(b: bool): int { if b then 1 else 0 }

  /** Tenths of a Kelvin, rounded towards those of 0 degrees Celsius. */
  function DeciKelvins(c: Condition, w: World): Option<int>
  {
    var t := w.temperature(AfterDot(c.device));
    if c.ignore || t.None? then None else Some(Tenths(t.value) + 2732)
  }

  /** The whole tenths in millidegrees. */
  function Tenths(t: int): (k: int)
    ensures t >= 0 ==> 100 * k <= t < 100 * k + 100
    ensures t <= 0 ==> 100 * k - 100 < t <= 100 * k
  {
    TruncDiv100(t)
  }

  /** The reading stands to the argument as the comparison asks; a default condition always
      holds, and so does the absence of motion. */
  predicate Stands(c: Condition, w: World)
  {
    c.kind == 1 || (c.kind == 4 && c.argument == 0) ||
    (Reading(c, w).Some? && OrderOf(Reading(c, w).value, c.argument) in Accepted(c.comparison))
  }

  lemma CodesMean(code: nat, value: int, argument: int)
    ensures Compare(code, value, argument) <==> OrderOf(value, argument) in Accepted(code)
  {
  }

  lemma HoldsMeansStands(c: Condition, w: World)
    ensures Holds(c, w) <==> Stands(c, w)
  {
    assert Sensed(c, w) == Reading(c, w);
    if Sensed(c, w).Some? { CodesMean(c.comparison, Sensed(c, w).value, c.argument); }
  }

  // ---- Sets ----

  ghost predicate Untimed(set0: seq<Condition>) { forall j :: 0 <= j < |set0| ==> set0[j].time == 0 }

  ghost predicate AllStand(s: State, env: Env, i: nat)
    requires i < |s.sets|
  {
    forall j | 0 <= j < |s.sets[i]| :: Stands(s.sets[i][j], env(i, j))
  }

  lemma UntimedSetPasses(s: State, env: Env, i: nat)
    requires i < |s.sets| && Untimed(s.sets[i])
    ensures SetPasses(s, env, i) <==> AllStand(s, env, i)
  {
    forall j | 0 <= j < |s.sets[i]| ensures PassesAt(s, env, i, j) <==> Stands(s.sets[i][j], env(i, j)) {
      HoldsMeansStands(s.sets[i][j], env(i, j));
    }
  }

  /** A pass over untimed sets names the target of the first set in which every reading stands as
      asked, and that one only. */
  lemma UntimedPassNames(s: State, env: Env, r: nat)
    requires NonEmpty(s.sets) && (forall i | 0 <= i < |s.sets| :: Untimed(s.sets[i])) && r < |s.sets|
    ensures FirstPassing(s, env, 0) == r <==> AllStand(s, env, r) && forall i | 0 <= i < r :: !AllStand(s, env, i)
    ensures FirstPassing(s, env, 0) == r ==> Target(s, env) == s.sets[r][0].target
  {
    forall i | 0 <= i < |s.sets| ensures SetPasses(s, env, i) <==> AllStand(s, env, i) { UntimedSetPasses(s, env, i); }
    if AllStand(s, env, r) && forall i | 0 <= i < r :: !AllStand(s, env, i) { FirstIs(s, env, r); }
  }

  /** A condition that waits passes exactly when it stands, has been entered, and the time since
      stands to its own as asked. */
  lemma TimedPasses(c: Condition, current: int, w: World)
    requires c.kind != 1 && c.target != current && c.time != 0
    ensures Passes(c, current, w) <==>
            Stands(c, w) && c.entry != 0 && OrderOf(Int32(w.now - c.entry), c.time) in Accepted(c.timeComparison)
  {
    HoldsMeansStands(c, w);
    CodesMean(c.timeComparison, Int32(w.now - c.entry), c.time);
  }

  /** With a set of default conditions every pass matches, whatever is read. */
  lemma DefaultSetMatches(s: State, env: Env, i: nat)
    requires NonEmpty(s.sets) && i < |s.sets| && forall j :: 0 <= j < |s.sets[i]| ==> s.sets[i][j].kind == 1
    ensures Matches(s, env) && FirstPassing(s, env, 0) <= i
  {
    assert SetPasses(s, env, i);
  }
}
