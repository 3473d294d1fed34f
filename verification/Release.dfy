/** Holders that keep releasing: the list empties and the device comes back to min. */
module Release {
  import opened Words
  import opened CoolingDevice
  import opened DeviceRuns
  import opened Ramp
  import Pid

  /** A run of releases. */
  ghost predicate Releases(c: Config, states: seq<State>, rs: seq<Request>)
  {
    IsRun(c, states, rs) && forall k | 0 <= k < |rs| :: !rs[k].on
  }

  /** Releases only take entries off the end of the list. */
  lemma {:induction false} ListShrinks(c: Config, states: seq<State>, rs: seq<Request>, a: nat, b: nat)
    requires Releases(c, states, rs) && a <= b < |states|
    ensures states[b].limits <= states[a].limits
    decreases b
  {
    if a < b {
      ListShrinks(c, states, rs, a, b - 1);
      assert Steps(c, states[b - 1], rs[b - 1], states[b - 1 + 1]);
      LimitsAfter(c, states[b - 1], rs[b - 1], states[b]);
    }
  }

  /** A stretch of releases in which the holder of the last entry takes part erases an entry. */
  lemma LastErases(c: Config, states: seq<State>, rs: seq<Request>, a: nat, k: nat, b: nat)
    requires Releases(c, states, rs) && a <= k < b < |states| && IsLast(states[a].limits, rs[k])
    ensures |states[b].limits| < |states[a].limits|
  {
    ListShrinks(c, states, rs, a, k);
    ListShrinks(c, states, rs, k + 1, b);
    LimitsAfter(c, states[k], rs[k], states[k + 1]);
    if |states[k].limits| == |states[a].limits| {
      assert states[k].limits == states[a].limits;
    }
  }

  /** As long as only others release, forced or not, neither the list nor the device moves; the
      first release by the last entry's holder takes an entry off. */
  lemma {:induction false} OnlyLastMoves(c: Config, states: seq<State>, rs: seq<Request>, a: nat, b: nat)
    requires Releases(c, states, rs) && a <= b < |states| && states[a].limits != []
    ensures states[b].limits != states[a].limits <==> exists k | a <= k < b :: IsLast(states[a].limits, rs[k])
    ensures states[b].limits == states[a].limits ==> states[b] == states[a] || states[b] == Untrended(states[a])
    decreases b
  {
    if k :| a <= k < b && IsLast(states[a].limits, rs[k]) {
      LastErases(c, states, rs, a, k, b);
    } else if a < b {
      OnlyLastMoves(c, states, rs, a, b - 1);
      var t, m, m' := StepFrom(c, states[b - 1], rs[b - 1], states[b]);
      OtherReleaseIgnored(c, t, m, rs[b - 1], states[b], m');
    }
  }

  /** In each of the rounds that the marks delimit, every holder of the list releases, in any order. */
  ghost predicate Rounds(states: seq<State>, rs: seq<Request>, marks: seq<nat>)
  {
    |states| == |rs| + 1 && |marks| > 0 && marks[0] == 0 && (forall i | 0 <= i < |marks| :: marks[i] <= |rs|) &&
    forall i | 0 < i < |marks| :: InRound(states[0].limits, rs, marks[i - 1], marks[i])
  }

  ghost predicate InRound(ls: seq<Limit>, rs: seq<Request>, a: nat, b: nat)
    requires b <= |rs|
  {
    a <= b && forall l | l in ls :: exists k | a <= k < b :: Holds(l, rs[k].zone, rs[k].trip)
  }

  /** Each round takes at least one entry off, so n holders are gone within n rounds. */
  lemma {:induction false} ListEmpties(c: Config, states: seq<State>, rs: seq<Request>, marks: seq<nat>, i: nat)
    requires Releases(c, states, rs) && Rounds(states, rs, marks) && i < |marks|
    ensures |states[marks[i]].limits| <= (if i <= |states[0].limits| then |states[0].limits| - i else 0)
  {
    if i > 0 {
      ListEmpties(c, states, rs, marks, i - 1);
      var a, b := marks[i - 1], marks[i];
      assert InRound(states[0].limits, rs, a, b);
      ListShrinks(c, states, rs, a, b);
      var ls := states[a].limits;
      if ls != [] {
        ListShrinks(c, states, rs, 0, a);
        assert LastOf(ls) in states[0].limits;
        var k :| a <= k < b && Holds(LastOf(ls), rs[k].zone, rs[k].trip);
        LastErases(c, states, rs, a, k, b);
      }
    }
  }

  // ---- Back to min ----

  predicate Gentle(c: Config, r: Request) { !r.on && !r.hard && !r.tripPid && (r.targeted ==> InRange(c, r.target)) }

  ghost predicate TargetsOk(c: Config, s: State)
  {
    InRange(c, s.curr) && forall l | l in s.limits :: l.targeted ==> InRange(c, l.target)
  }

  lemma StepDownFalls(c: Config, s: State)
    requires InRange(c, s.curr) && Stride(c) >= 0
    ensures InRange(c, StepDown(c, s).curr) && Distance(c, StepDown(c, s).curr) <= Less(Distance(c, s.curr), Stride(c))
  {
    if !c.autoDown { StepDownMoves(c, s); }
  }

  lemma ActReleases(c: Config, s: State, r: Request, g: Goal, m: Pid.Memory)
    requires !c.pidEnable && Gentle(c, r) && InRange(c, s.curr) && (g.targeted ==> InRange(c, g.target))
    ensures InRange(c, Act(c, s, r, g, m).0.curr)
    ensures g.targeted ==> Act(c, s, r, g, m).0.curr == g.target
    ensures !g.targeted ==> Distance(c, Act(c, s, r, g, m).0.curr) <= Less(Distance(c, s.curr), Stride(c))
  {
    StepDownFalls(c, Begin(c, s, r));
  }

  lemma GentleStep(c: Config, s: State, r: Request, s': State)
    requires !c.pidEnable && Gentle(c, r) && TargetsOk(c, s) && Steps(c, s, r, s')
    ensures TargetsOk(c, s')
    ensures s.limits == [] ==> s'.limits == [] && Distance(c, s'.curr) <= Less(Distance(c, s.curr), Stride(c))
  {
    var t, m, m' := StepFrom(c, s, r, s');
    GentleServed(c, t, m, r, s', m');
  }

  lemma GentleServed(c: Config, s: State, m: Pid.Memory, r: Request, s': State, m': Pid.Memory)
    requires !c.pidEnable && Gentle(c, r) && TargetsOk(c, s) && Serves(c, s, m, r, s', m')
    ensures TargetsOk(c, s')
    ensures s.limits == [] ==> s'.limits == [] && Distance(c, s'.curr) <= Less(Distance(c, s.curr), Stride(c))
  {
    ServedLimits(c, s, m, r, s', m');
    forall l | l in s'.limits ensures l in s.limits { }
    var n := |s.limits|;
    if n == 0 {
      ActReleases(c, s, r, FreeGoal(c, r, None), m);
    } else if IsLast(s.limits, r) {
      var rest := s.limits[..n - 1];
      if n > 1 {
        assert LastOf(rest) in s.limits;
        ActReleases(c, s.(limits := rest), r, GoalOf(LastOf(rest)), m);
      } else {
        ActReleases(c, s.(limits := rest), r, FreeGoal(c, r, Some(s.limits[0])), m);
      }
    }
  }

  lemma {:induction false} StaysInRange(c: Config, states: seq<State>, rs: seq<Request>, n: nat)
    requires !c.pidEnable && Releases(c, states, rs) && n < |states| && TargetsOk(c, states[0])
    requires forall k | 0 <= k < |rs| :: Gentle(c, rs[k])
    ensures TargetsOk(c, states[n])
  {
    if n > 0 {
      StaysInRange(c, states, rs, n - 1);
      assert Steps(c, states[n - 1], rs[n - 1], states[n - 1 + 1]);
      GentleStep(c, states[n - 1], rs[n - 1], states[n]);
    }
  }

  /** From an empty list each release goes at least a stride. */
  lemma {:induction false} FreeFalls(c: Config, states: seq<State>, rs: seq<Request>, a: nat, n: nat)
    requires !c.pidEnable && Releases(c, states, rs) && a <= n < |states| && TargetsOk(c, states[0]) && Stride(c) > 0
    requires forall k | 0 <= k < |rs| :: Gentle(c, rs[k])
    requires states[a].limits == []
    ensures TargetsOk(c, states[n]) && states[n].limits == []
    ensures Distance(c, states[n].curr) <= Left(Distance(c, states[a].curr), Stride(c), n - a)
    decreases n
  {
    StaysInRange(c, states, rs, n);
    StaysInRange(c, states, rs, a);
    if a < n {
      FreeFalls(c, states, rs, a, n - 1);
      assert Steps(c, states[n - 1], rs[n - 1], states[n - 1 + 1]);
      GentleStep(c, states[n - 1], rs[n - 1], states[n]);
      FallOn(Distance(c, states[a].curr), Stride(c), n - a, Distance(c, states[n - 1].curr),
             Distance(c, states[n].curr));
    }
  }

  lemma FallOn(d: int, stride: int, n: nat, x: int, y: int)
    requires n > 0 && stride > 0 && d >= 0 && x <= Left(d, stride, n - 1) && y <= Less(x, stride)
    ensures y <= Left(d, stride, n)
  {
    LessLeft(d, stride, n);
  }

  function Span(c: Config): nat { if c.min <= c.max then c.max - c.min else c.min - c.max }

  /** If every holder keeps releasing, then after as many rounds as there are holders the list
      is empty, and ceil(span / step) releases later at most the device is at min. */
  lemma ReleasesReachMin(c: Config, states: seq<State>, rs: seq<Request>, marks: seq<nat>, n: nat)
    requires !c.pidEnable && Releases(c, states, rs) && TargetsOk(c, states[0]) && Stride(c) > 0
    requires forall k | 0 <= k < |rs| :: Gentle(c, rs[k])
    requires Rounds(states, rs, marks) && |states[0].limits| < |marks|
    requires marks[|states[0].limits|] + CeilDiv(Span(c), Stride(c)) <= n < |states|
    ensures states[n].limits == [] && states[n].curr == c.min
  {
    var a := marks[|states[0].limits|];
    ListEmpties(c, states, rs, marks, |states[0].limits|);
    FreeFalls(c, states, rs, a, n);
    StaysInRange(c, states, rs, a);
    var d := Distance(c, states[a].curr);
    CeilMono(d, Span(c), Stride(c));
    LeftUntil(d, Stride(c), n - a);
  }

  lemma CeilMono(d: nat, e: nat, k: nat)
    requires d <= e && k > 0
    ensures CeilDiv(d, k) <= CeilDiv(e, k)
  {
    var p, q := CeilDiv(d, k), CeilDiv(e, k);
    assert k * p <= d + k - 1 < k * (p + 1) && k * q <= e + k - 1 < k * (q + 1);
    if p > q { MulMono(k, q + 1, p); }
  }
}
