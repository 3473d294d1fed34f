/** Holders that each ask for a target state: the device is where the most demanding of them
    wants it. */
module Arbitration {
  import opened CoolingDevice
  import opened DeviceRuns
  import Pid

  /** a is at least as restrictive as b: nearer to max. */
  predicate AtLeast(c: Config, a: int, b: int) { if c.min < c.max then a >= b else a <= b }

  ghost predicate MostRestrictive(c: Config, ls: seq<Limit>, t: int)
  {
    (exists l | l in ls :: l.target == t) && forall l | l in ls :: AtLeast(c, t, l.target)
  }

  /** What the holders are owed. */
  ghost predicate Arbitrated(c: Config, s: State)
  {
    if s.limits == [] then s.curr == c.min else MostRestrictive(c, s.limits, s.curr)
  }

  predicate AsksTarget(c: Config, r: Request) { r.targeted && !r.bounded && InRange(c, r.target) }

  /** A list made by such requests. */
  ghost predicate TargetList(c: Config, ls: seq<Limit>)
  {
    (forall l | l in ls :: l.targeted && InRange(c, l.target)) && Sorted((a, b) => TargetOrder(c, a, b), ls)
  }

  /** A device whose activations may have been ignored is never beyond what is asked. */
  ghost predicate Behind(c: Config, s: State)
  {
    TargetList(c, s.limits) && InRange(c, s.curr) &&
    if s.limits == [] then s.curr == c.min else AtLeast(c, LastOf(s.limits).target, s.curr)
  }

  lemma LastIsMost(c: Config, ls: seq<Limit>)
    requires TargetList(c, ls) && ls != []
    ensures LastOf(ls) in ls && MostRestrictive(c, ls, LastOf(ls).target)
  {
    forall l | l in ls ensures AtLeast(c, LastOf(ls).target, l.target) {
      var i :| 0 <= i < |ls| && ls[i] == l;
    }
  }

  lemma RegisterKeepsList(c: Config, ls: seq<Limit>, r: Request, ls': seq<Limit>)
    requires TargetList(c, ls) && AsksTarget(c, r) && Registers(c, ls, r, ls')
    ensures TargetList(c, ls') && ls' != []
    ensures ls != [] ==> AtLeast(c, LastOf(ls').target, LastOf(ls).target)
  {
    forall l | l in ls' ensures l.targeted && InRange(c, l.target) { RegisteredFrom(c, ls, r, ls', l); }
    RegisteredSize(c, ls, r, ls');
    LastIsMost(c, ls');
    if ls != [] { RegisteredHas(c, ls, r, ls', LastOf(ls)); }
  }

  /** The device is at the last entry's target. */
  lemma AtLast(c: Config, s: State)
    requires TargetList(c, s.limits) && s.limits != [] && s.curr == LastOf(s.limits).target
    ensures Arbitrated(c, s) && Behind(c, s)
  {
    LastIsMost(c, s.limits);
  }

  lemma OnStep(c: Config, s: State, r: Request, s': State)
    requires Behind(c, s) && AsksTarget(c, r) && r.on && Steps(c, s, r, s')
    ensures Behind(c, s') && s'.limits != []
    ensures !Debounced(c, s, r) ==> s'.curr == LastOf(s'.limits).target
    ensures s'.curr == s.curr || s'.curr == LastOf(s'.limits).target
  {
    LimitsAfter(c, s, r, s');
    RegisterKeepsList(c, s.limits, r, s'.limits);
    LastIsMost(c, s'.limits);
    assert InRange(c, LastOf(s'.limits).target);
  }

  lemma PrefixIsList(c: Config, ls: seq<Limit>)
    requires TargetList(c, ls) && ls != []
    ensures TargetList(c, ls[..|ls| - 1])
  {
    var rest := ls[..|ls| - 1];
    forall l | l in rest ensures l in ls { }
  }

  /** A release acts on the device only by going to what is asked next. */
  lemma OffStep(c: Config, s: State, r: Request, s': State)
    requires Behind(c, s) && AsksTarget(c, r) && !r.on && Steps(c, s, r, s')
    ensures Behind(c, s')
    ensures s.limits == [] || IsLast(s.limits, r) ==> Arbitrated(c, s')
    ensures s.limits != [] && !IsLast(s.limits, r) ==> s' == s || s' == Untrended(s)
  {
    var t, m, m' := StepFrom(c, s, r, s');
    OffServed(c, t, m, r, s', m');
  }

  lemma OffServed(c: Config, s: State, m: Pid.Memory, r: Request, s': State, m': Pid.Memory)
    requires Behind(c, s) && AsksTarget(c, r) && !r.on && Serves(c, s, m, r, s', m')
    ensures Behind(c, s')
    ensures s.limits == [] || IsLast(s.limits, r) ==> Arbitrated(c, s')
    ensures s.limits != [] && !IsLast(s.limits, r) ==> s' == s
  {
    if s.limits != [] && IsLast(s.limits, r) {
      PrefixIsList(c, s.limits);
      assert LastOf(s.limits) in s.limits;
      if |s.limits| > 1 { AtLast(c, s'); }
    }
  }

  /** After an activation that is not debounced, and after a release that takes effect, the
      device is where the holders want it. */
  lemma StepArbitrates(c: Config, s: State, r: Request, s': State)
    requires Behind(c, s) && AsksTarget(c, r) && Steps(c, s, r, s')
    ensures Behind(c, s')
    ensures (if r.on then !Debounced(c, s, r) else s.limits == [] || IsLast(s.limits, r)) || (Arbitrated(c, s) && !r.on)
            ==> Arbitrated(c, s')
  {
    if r.on {
      OnStep(c, s, r, s');
      if !Debounced(c, s, r) { AtLast(c, s'); }
    } else {
      OffStep(c, s, r, s');
    }
  }

  lemma {:induction false} RunStaysBehind(c: Config, states: seq<State>, rs: seq<Request>, n: nat)
    requires IsRun(c, states, rs) && n < |states| && Behind(c, states[0])
    requires forall k | 0 <= k < |rs| :: AsksTarget(c, rs[k])
    ensures Behind(c, states[n])
  {
    if n > 0 {
      RunStaysBehind(c, states, rs, n - 1);
      assert Steps(c, states[n - 1], rs[n - 1], states[n - 1 + 1]);
      StepArbitrates(c, states[n - 1], rs[n - 1], states[n]);
    }
  }

  /** Without debouncing, the device is at the most restrictive target of the list, or at min
      when the list is empty, after every request of every run. */
  lemma {:induction false} RunArbitrates(c: Config, states: seq<State>, rs: seq<Request>, n: nat)
    requires IsRun(c, states, rs) && n < |states| && states[0].limits == [] && states[0].curr == c.min
    requires forall k | 0 <= k < |rs| :: AsksTarget(c, rs[k]) && (rs[k].on ==> !Debounced(c, states[k], rs[k]))
    ensures Arbitrated(c, states[n])
  {
    if n > 0 {
      RunArbitrates(c, states, rs, n - 1);
      RunStaysBehind(c, states, rs, n - 1);
      assert Steps(c, states[n - 1], rs[n - 1], states[n - 1 + 1]);
      StepArbitrates(c, states[n - 1], rs[n - 1], states[n]);
    }
  }

  /** With debouncing, the device never passes what is asked, and is there again after the
      first activation that is past the interval. */
  lemma DebouncedCatchesUp(c: Config, states: seq<State>, rs: seq<Request>, n: nat)
    requires IsRun(c, states, rs) && n < |rs| && states[0].limits == [] && states[0].curr == c.min
    requires forall k | 0 <= k < |rs| :: AsksTarget(c, rs[k])
    ensures if states[n].limits == [] then states[n].curr == c.min
            else exists l | l in states[n].limits :: AtLeast(c, l.target, states[n].curr)
    ensures rs[n].on && (rs[n].force || rs[n].now - states[n].lastAction > c.debounce) ==> Arbitrated(c, states[n + 1])
  {
    RunStaysBehind(c, states, rs, n);
    StepArbitrates(c, states[n], rs[n], states[n + 1]);
    if states[n].limits != [] { LastIsMost(c, states[n].limits); }
  }
}
