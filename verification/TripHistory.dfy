/** What a trip promises its devices over every history of readings. */
module TripHistory {
  import opened Words
  import opened TripPoint

  /** states[k] is the trip before reading k, and os[k] what that reading leads to; a new trip
      is off, and its bindings are as configured. */
  ghost predicate IsHistory(t: Trip, states: seq<State>, rs: seq<Reading>, os: seq<Outcome>)
  {
    |states| == |rs| + 1 && |os| == |rs| && states[0] == State(false, false, 0, states[0].bindings) &&
    forall k | 0 <= k < |rs| ::
      |rs[k].views| == |states[k].bindings| && Checks(t, states[k], rs[k], states[k + 1], os[k])
  }

  /** The reading calls device i with this target. */
  ghost predicate Calls(o: Outcome, i: nat, on: bool, target: int) { DeviceCall(i, on, target) in o.calls }

  ghost predicate Called(o: Outcome, i: nat) { exists on, target :: Calls(o, i, on, target) }

  // ---- One reading, device by device ----

  lemma {:induction false} SameBindings(t: Trip, states: seq<State>, rs: seq<Reading>, os: seq<Outcome>, n: nat)
    requires IsHistory(t, states, rs, os) && n <= |rs|
    ensures |states[n].bindings| == |states[0].bindings|
    ensures n < |rs| ==> |rs[n].views| == |states[0].bindings|
  {
    if n > 0 {
      SameBindings(t, states, rs, os, n - 1);
      assert Checks(t, states[n - 1], rs[n - 1], states[n - 1 + 1], os[n - 1]);
    }
  }

  /** The reading is of the trip's sensor, or the trip takes any, and when it is hot the device
      the trip depends on is in a state that lets it. */
  predicate Addressed(t: Trip, r: Reading)
  {
    t.sensor in {0xFFFF, r.sensor} &&
    (r.temp >= t.temp && t.depends.Some? ==>
       var (rel, bound) := t.depends.value;
       var x := r.dependState;
       rel in if x < bound then {Lesser, LesserOrEqual} else if x > bound then {Greater, GreaterOrEqual}
              else {Equal, LesserOrEqual, GreaterOrEqual})
  }

  /** The reading may call devices. */
  predicate Concerns(t: Trip, r: Reading)
  {
    Addressed(t, r) &&
    (t.kind, r.pref) in {(Active, Performance), (Max, Performance), (Passive, EnergyConserve), (Max, EnergyConserve)}
  }

  lemma AcceptsAddressed(t: Trip, r: Reading)
    ensures Accepts(t, r) <==> t.kind != Invalid && Addressed(t, r)
  {
  }

  lemma ConcernsCounts(t: Trip, r: Reading)
    ensures Concerns(t, r) <==> Counts(t, r)
  {
  }

  lemma IdleWithout(t: Trip, s: State, r: Reading, s': State, o: Outcome, i: nat)
    requires |r.views| == |s.bindings| && Checks(t, s, r, s', o) && !Concerns(t, r)
    ensures !Called(o, i) && s'.bindings == s.bindings && s'.tripOn == s.tripOn
  {
    ConcernsCounts(t, r);
  }

  /** A call names an index of its set, and every index of the set has its call. */
  lemma CallsAreOf(calls: seq<DeviceCall>, on: bool, called: set<nat>, bs: seq<Binding>, views: seq<View>, i: nat)
    requires |bs| == |views| && AreCalls(calls, on, called, bs, views)
    ensures forall d, x | DeviceCall(i, d, x) in calls ::
              d == on && i in called && i < |bs| && x == TargetOf(bs[i], views[i])
    ensures i in called ==> i < |bs| && DeviceCall(i, on, TargetOf(bs[i], views[i])) in calls
  {
    if i in called {
      var k :| 0 <= k < |calls| && calls[k].index == i;
      assert calls[k] == DeviceCall(i, on, TargetOf(bs[i], views[i]));
    }
  }

  /** One reading and one binding: a call carries the target, or the minimum where there is none,
      and that value is kept; otherwise the target stays. */
  lemma TargetStep(t: Trip, s: State, r: Reading, s': State, o: Outcome, i: nat)
    requires |r.views| == |s.bindings| && Checks(t, s, r, s', o) && i < |s.bindings|
    ensures |s'.bindings| == |s.bindings|
    ensures !Called(o, i) ==> s'.bindings[i].target == s.bindings[i].target
    ensures forall on, x | Calls(o, i, on, x) ::
              s'.bindings[i].target == x && x == if s.bindings[i].target != 0x7FFF_FFFF then s.bindings[i].target
                                                 else r.views[i].min
  {
    if !Concerns(t, r) {
      IdleWithout(t, s, r, s', o, i);
    } else {
      ConcernsCounts(t, r);
      var x := TargetOf(s.bindings[i], r.views[i]);
      match MoveOf(t, s.tripOn, r.temp)
      case Stay =>
      case On =>
        CallsAreOf(o.calls, true, OnSet(t, s, r), s.bindings, r.views, i);
        if i in OnSet(t, s, r) { assert Calls(o, i, true, x); }
      case Off =>
        CallsAreOf(o.calls, false, OffSet(t, s, r), s.bindings, r.views, i);
        if i in OffSet(t, s, r) { assert Calls(o, i, false, x); }
    }
  }

  // ---- Targets ----

  /** A binding configured with a target keeps it. */
  lemma {:induction false} TargetIsKept(t: Trip, states: seq<State>, rs: seq<Reading>, os: seq<Outcome>, i: nat, a: nat,
                                        n: nat)
    requires IsHistory(t, states, rs, os) && a <= n <= |rs| && i < |states[a].bindings|
    requires states[a].bindings[i].target != 0x7FFF_FFFF
    ensures i < |states[n].bindings| && states[n].bindings[i].target == states[a].bindings[i].target
    decreases n
  {
    if a < n {
      TargetIsKept(t, states, rs, os, i, a, n - 1);
      assert Checks(t, states[n - 1], rs[n - 1], states[n - 1 + 1], os[n - 1]);
      TargetStep(t, states[n - 1], rs[n - 1], states[n], os[n - 1], i);
      if Called(os[n - 1], i) { var on, x :| Calls(os[n - 1], i, on, x); }
    }
  }

  /** And every call of its device, on or off, carries that target. */
  lemma ConfiguredTargetIsCalled(t: Trip, states: seq<State>, rs: seq<Reading>, os: seq<Outcome>, i: nat, n: nat,
                                 on: bool, x: int)
    requires IsHistory(t, states, rs, os) && n < |rs| && i < |states[0].bindings| && Calls(os[n], i, on, x)
    requires states[0].bindings[i].target != 0x7FFF_FFFF
    ensures x == states[0].bindings[i].target == states[n + 1].bindings[i].target
  {
    TargetIsKept(t, states, rs, os, i, 0, n);
    TargetStep(t, states[n], rs[n], states[n + 1], os[n], i);
  }

  /** A binding without a target has none until its first call. */
  lemma {:induction false} NoTargetYet(t: Trip, states: seq<State>, rs: seq<Reading>, os: seq<Outcome>, i: nat, n: nat)
    requires IsHistory(t, states, rs, os) && n <= |rs| && i < |states[0].bindings|
    requires states[0].bindings[i].target == 0x7FFF_FFFF && forall k | 0 <= k < n :: !Called(os[k], i)
    ensures i < |states[n].bindings| && states[n].bindings[i].target == 0x7FFF_FFFF
  {
    if n > 0 {
      NoTargetYet(t, states, rs, os, i, n - 1);
      assert Checks(t, states[n - 1], rs[n - 1], states[n - 1 + 1], os[n - 1]);
      TargetStep(t, states[n - 1], rs[n - 1], states[n], os[n - 1], i);
    }
  }

  /** Its first call carries the device's minimum at that reading, and unless that is the mark of
      a missing target itself, every later call does, whatever the minimum is then. */
  lemma FirstCallSetsTarget(t: Trip, states: seq<State>, rs: seq<Reading>, os: seq<Outcome>, i: nat, a: nat, n: nat,
                            on: bool, x: int)
    requires IsHistory(t, states, rs, os) && a <= n < |rs| && i < |states[0].bindings|
    requires states[0].bindings[i].target == 0x7FFF_FFFF && (forall k | 0 <= k < a :: !Called(os[k], i))
    requires Called(os[a], i) && Calls(os[n], i, on, x)
    ensures i < |rs[a].views| && i < |rs[n].views|
    ensures n == a || rs[a].views[i].min != 0x7FFF_FFFF ==> x == rs[a].views[i].min == states[n + 1].bindings[i].target
  {
    NoTargetYet(t, states, rs, os, i, a);
    SameBindings(t, states, rs, os, a);
    SameBindings(t, states, rs, os, n);
    TargetStep(t, states[a], rs[a], states[a + 1], os[a], i);
    TargetStep(t, states[n], rs[n], states[n + 1], os[n], i);
    var on', x' :| Calls(os[a], i, on', x');
    if a < n && rs[a].views[i].min != 0x7FFF_FFFF {
      assert states[a + 1].bindings[i].target == rs[a].views[i].min;
      TargetIsKept(t, states, rs, os, i, a + 1, n);
    }
  }

  // ---- Who is called ----

  /** The walk up gets past the sampling periods of the first devices, i with them, and a
      sequential one finds all before i at max. */
  ghost predicate GetsTo(t: Trip, s: State, r: Reading, i: nat)
    requires i < |s.bindings| == |r.views|
  {
    Concerns(t, r) && r.temp >= t.temp &&
    (forall k | 0 <= k <= i :: s.bindings[k].period == 0 || r.now - s.bindings[k].lastOp >= s.bindings[k].period) &&
    (t.sequential ==> forall k | 0 <= k < i :: r.views[k].inMax)
  }

  /** Of the devices the walk gets to, exactly those not at max are called on; of those the walk
      down gets to, exactly those not at min are called off. */
  lemma CalledExactly(t: Trip, states: seq<State>, rs: seq<Reading>, os: seq<Outcome>, i: nat, n: nat)
    requires IsHistory(t, states, rs, os) && n < |rs| && i < |states[n].bindings|
    ensures (exists x :: Calls(os[n], i, true, x)) <==> GetsTo(t, states[n], rs[n], i) && !rs[n].views[i].inMax
    ensures (exists x :: Calls(os[n], i, false, x)) <==>
              Concerns(t, rs[n]) && rs[n].temp < t.temp && !rs[n].views[i].inMin &&
              (t.sequential ==> forall k | i < k < |rs[n].views| :: rs[n].views[k].inMin) &&
              (states[n].tripOn ==> (rs[n].temp + t.hyst) % 0x1_0000_0000 < t.temp)
  {
    WhoIsCalled(t, states[n], rs[n], states[n + 1], os[n], i);
  }

  lemma WhoIsCalled(t: Trip, s: State, r: Reading, s': State, o: Outcome, i: nat)
    requires |r.views| == |s.bindings| && Checks(t, s, r, s', o) && i < |s.bindings|
    ensures (exists x :: Calls(o, i, true, x)) <==>
              Concerns(t, r) && r.temp >= t.temp && CallsOn(s.bindings, r.views, t.sequential, r.now, i)
    ensures (exists x :: Calls(o, i, false, x)) <==>
              Concerns(t, r) && r.temp < t.temp && CallsOff(s.bindings, r.views, t.sequential, i) &&
              (s.tripOn ==> (r.temp + t.hyst) % 0x1_0000_0000 < t.temp)
  {
    if !Concerns(t, r) {
      IdleWithout(t, s, r, s', o, i);
      assert forall on, x :: !Calls(o, i, on, x);
    } else {
      ConcernsCounts(t, r);
      var x := TargetOf(s.bindings[i], r.views[i]);
      match MoveOf(t, s.tripOn, r.temp)
      case Stay =>
      case On =>
        CallsAreOf(o.calls, true, OnSet(t, s, r), s.bindings, r.views, i);
        if i in OnSet(t, s, r) { assert Calls(o, i, true, x); }
      case Off =>
        CallsAreOf(o.calls, false, OffSet(t, s, r), s.bindings, r.views, i);
        if i in OffSet(t, s, r) { assert Calls(o, i, false, x); }
    }
  }

  /** A sequential trip calls at most one device: on, the first that is not at max; off, the last
      that is not at min. */
  lemma SequentialCallsOne(t: Trip, states: seq<State>, rs: seq<Reading>, os: seq<Outcome>, i: nat, n: nat, on: bool,
                           x: int)
    requires IsHistory(t, states, rs, os) && n < |rs| && t.sequential && Calls(os[n], i, on, x)
    ensures os[n].calls == [DeviceCall(i, on, x)]
    ensures i < |rs[n].views|
    ensures on ==> !rs[n].views[i].inMax && forall k | 0 <= k < i :: rs[n].views[k].inMax
    ensures !on ==> !rs[n].views[i].inMin && forall k | i < k < |rs[n].views| :: rs[n].views[k].inMin
  {
    var s, r, o := states[n], rs[n], os[n];
    CallsInRange(t, s, r, states[n + 1], o, i);
    WhoIsCalled(t, s, r, states[n + 1], o, i);
    assert Calls(o, i, on, x);
    forall c | c in o.calls ensures c == DeviceCall(i, on, x) {
      assert Calls(o, c.index, c.on, c.target);
      CallsInRange(t, s, r, states[n + 1], o, c.index);
      WhoIsCalled(t, s, r, states[n + 1], o, c.index);
      TargetStep(t, s, r, states[n + 1], o, i);
    }
    CallsAreOrdered(t, s, r, states[n + 1], o);
    forall j | 0 <= j < |o.calls| ensures o.calls[j] == DeviceCall(i, on, x) { assert o.calls[j] in o.calls; }
    OneCall(o.calls, DeviceCall(i, on, x));
  }

  lemma OneCall(calls: seq<DeviceCall>, c: DeviceCall)
    requires |calls| > 0 && (forall j | 0 <= j < |calls| :: calls[j] == c)
    requires forall j, k | 0 <= j < k < |calls| :: calls[j].index != calls[k].index
    ensures calls == [c]
  {
    var last := calls[|calls| - 1];
    assert calls[0] == last;
  }

  lemma CallsInRange(t: Trip, s: State, r: Reading, s': State, o: Outcome, i: nat)
    requires |r.views| == |s.bindings| && Checks(t, s, r, s', o) && Called(o, i)
    ensures i < |s.bindings|
  {
  }

  lemma CallsAreOrdered(t: Trip, s: State, r: Reading, s': State, o: Outcome)
    requires |r.views| == |s.bindings| && Checks(t, s, r, s', o)
    ensures forall j, k | 0 <= j < k < |o.calls| :: o.calls[j].index != o.calls[k].index
  {
  }

  // ---- Sampling ----

  /** A sampled binding's clock is at or after every earlier activation of its device. */
  lemma {:induction false} ClockAfterCalls(t: Trip, states: seq<State>, rs: seq<Reading>, os: seq<Outcome>, i: nat,
                                           a: nat, n: nat, x: int)
    requires IsHistory(t, states, rs, os) && a < n <= |rs| && i < |states[0].bindings|
    requires states[0].bindings[i].period > 0 && Calls(os[a], i, true, x)
    ensures i < |states[n].bindings| && states[n].bindings[i].period == states[0].bindings[i].period
    ensures states[n].bindings[i].lastOp >= rs[a].now
    decreases n
  {
    SameBindings(t, states, rs, os, n - 1);
    PeriodIsKept(t, states, rs, os, i, n - 1);
    assert Checks(t, states[n - 1], rs[n - 1], states[n - 1 + 1], os[n - 1]);
    ClockStep(t, states[n - 1], rs[n - 1], states[n], os[n - 1], i);
    if a < n - 1 { ClockAfterCalls(t, states, rs, os, i, a, n - 1, x); }
  }

  lemma {:induction false} PeriodIsKept(t: Trip, states: seq<State>, rs: seq<Reading>, os: seq<Outcome>, i: nat, n: nat)
    requires IsHistory(t, states, rs, os) && n <= |rs| && i < |states[0].bindings|
    ensures i < |states[n].bindings| && states[n].bindings[i].period == states[0].bindings[i].period
  {
    if n > 0 {
      PeriodIsKept(t, states, rs, os, i, n - 1);
      assert Checks(t, states[n - 1], rs[n - 1], states[n - 1 + 1], os[n - 1]);
      ClockStep(t, states[n - 1], rs[n - 1], states[n], os[n - 1], i);
    }
  }

  lemma ClockStep(t: Trip, s: State, r: Reading, s': State, o: Outcome, i: nat)
    requires |r.views| == |s.bindings| && Checks(t, s, r, s', o) && i < |s.bindings|
    ensures |s'.bindings| == |s.bindings| && s'.bindings[i].period == s.bindings[i].period
    ensures s'.bindings[i].lastOp ==
            if s.bindings[i].period != 0 && GetsTo(t, s, r, i) then r.now else s.bindings[i].lastOp
    ensures forall x | Calls(o, i, true, x) && s.bindings[i].period > 0 ::
              s'.bindings[i].lastOp == r.now && r.now - s.bindings[i].lastOp >= s.bindings[i].period
  {
    WhoIsCalled(t, s, r, s', o, i);
    if !Concerns(t, r) { IdleWithout(t, s, r, s', o, i); } else { ConcernsCounts(t, r); }
  }

  /** Two activations of a sampled device are at least its period apart. */
  lemma CallsAreApart(t: Trip, states: seq<State>, rs: seq<Reading>, os: seq<Outcome>, i: nat, a: nat, n: nat, x: int,
                      y: int)
    requires IsHistory(t, states, rs, os) && a < n < |rs| && i < |states[0].bindings|
    requires states[0].bindings[i].period > 0 && Calls(os[a], i, true, x) && Calls(os[n], i, true, y)
    ensures rs[n].now - rs[a].now >= states[0].bindings[i].period
  {
    ClockAfterCalls(t, states, rs, os, i, a, n, x);
    assert Checks(t, states[n], rs[n], states[n + 1], os[n]);
    SameBindings(t, states, rs, os, n);
    ClockStep(t, states[n], rs[n], states[n + 1], os[n], i);
  }

  // ---- The switch, the count and the poll flag ----

  /** The switch and the count of the class are those of the laws about whole histories. */
  lemma {:induction false} HistoryTracks(t: Trip, states: seq<State>, rs: seq<Reading>, os: seq<Outcome>, n: nat)
    requires IsHistory(t, states, rs, os) && n <= |rs|
    ensures states[n].tripOn == OnAt(t, rs, n) && states[n].crit == CritAt(t, rs, n)
  {
    if n > 0 {
      HistoryTracks(t, states, rs, os, n - 1);
      assert Checks(t, states[n - 1], rs[n - 1], states[n - 1 + 1], os[n - 1]);
    }
  }

  /** How many addressed readings in a row, up to the n-th, were at or above the trip. */
  function HotInARow(t: Trip, rs: seq<Reading>, n: nat): nat
    requires n <= |rs|
  {
    if n == 0 then 0
    else if !Addressed(t, rs[n - 1]) then HotInARow(t, rs, n - 1)
    else if rs[n - 1].temp < t.temp then 0
    else 1 + HotInARow(t, rs, n - 1)
  }

  lemma {:induction false} RowIsRun(t: Trip, rs: seq<Reading>, n: nat)
    requires n <= |rs| && t.kind != Invalid
    ensures HotInARow(t, rs, n) == HotRun(t, rs, n)
  {
    if n > 0 {
      AcceptsAddressed(t, rs[n - 1]);
      RowIsRun(t, rs, n - 1);
    }
  }

  /** A critical trip powers off, and a hot one suspends, with every fifth hot reading in a row;
      nothing else does. */
  lemma ActsEveryFifth(t: Trip, states: seq<State>, rs: seq<Reading>, os: seq<Outcome>, n: nat)
    requires IsHistory(t, states, rs, os) && n < |rs|
    ensures var fifth := !t.ignoreCritical && Addressed(t, rs[n]) && rs[n].temp >= t.temp &&
                         HotInARow(t, rs, n + 1) % 5 == 0;
            os[n].action == if t.kind == Critical && fifth then PowerOff
                            else if t.kind == Hot && fifth then Suspend else NoAction
  {
    HistoryTracks(t, states, rs, os, n);
    assert Checks(t, states[n], rs[n], states[n + 1], os[n]);
    AcceptsAddressed(t, rs[n]);
    if IsUrgent(t) && !t.ignoreCritical {
      FiresEveryFifth(t, rs, n);
      RowIsRun(t, rs, n + 1);
    }
  }

  /** The latest usable reading of the first n was at or above the trip. */
  ghost predicate LastUsableHot(t: Trip, rs: seq<Reading>, n: nat)
    requires n <= |rs|
  {
    exists k | 0 <= k < n ::
      Usable(t, rs[k]) && rs[k].temp >= t.temp && NoneUsable(t, rs, k + 1, n)
  }

  predicate Usable(t: Trip, r: Reading) { Addressed(t, r) && r.sensorFound }

  ghost predicate NoneUsable(t: Trip, rs: seq<Reading>, a: nat, n: nat)
    requires n <= |rs|
  {
    forall j | a <= j < n :: !Usable(t, rs[j])
  }

  /** Polling is fast exactly while the latest usable reading was hot, and a reset is asked for
      exactly when that ends. */
  lemma {:induction false} PollFollows(t: Trip, states: seq<State>, rs: seq<Reading>, os: seq<Outcome>, n: nat)
    requires IsHistory(t, states, rs, os) && n <= |rs| && t.kind == Polling && t.sensor != 0xFFFF
    ensures states[n].pollOn <==> LastUsableHot(t, rs, n)
    ensures n > 0 ==> (os[n - 1].reset <==> LastUsableHot(t, rs, n - 1) && !LastUsableHot(t, rs, n))
  {
    if n > 0 {
      PollFollows(t, states, rs, os, n - 1);
      assert Checks(t, states[n - 1], rs[n - 1], states[n - 1 + 1], os[n - 1]);
      AcceptsAddressed(t, rs[n - 1]);
      LastUsable(t, rs, n - 1);
    }
  }

  lemma LastUsable(t: Trip, rs: seq<Reading>, n: nat)
    requires n < |rs|
    ensures LastUsableHot(t, rs, n + 1) <==>
              if Usable(t, rs[n]) then rs[n].temp >= t.temp else LastUsableHot(t, rs, n)
  {
    if Usable(t, rs[n]) {
      assert NoneUsable(t, rs, n + 1, n + 1);
    } else if LastUsableHot(t, rs, n) {
      var k :| 0 <= k < n && Usable(t, rs[k]) && rs[k].temp >= t.temp && NoneUsable(t, rs, k + 1, n);
      assert NoneUsable(t, rs, k + 1, n + 1);
    }
  }

  /** Only trips of the two other kinds ever reset or act. */
  lemma OthersNeverAct(t: Trip, states: seq<State>, rs: seq<Reading>, os: seq<Outcome>, n: nat)
    requires IsHistory(t, states, rs, os) && n < |rs|
    requires t.kind !in {Critical, Hot} && (t.kind == Polling ==> t.sensor == 0xFFFF)
    ensures os[n].action == NoAction && !os[n].reset && (os[n].used <==> Concerns(t, rs[n]))
  {
    assert Checks(t, states[n], rs[n], states[n + 1], os[n]);
    ConcernsCounts(t, rs[n]);
  }
}
