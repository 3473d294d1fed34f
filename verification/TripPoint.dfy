/** A trip point: what one temperature reading does to it, and which cooling devices it calls. */
module TripPoint {
  import opened Words
  import CoolingDevice

  datatype Kind = Critical | Hot | Max | Passive | Active | Polling | Invalid
  datatype Preference = EnergyConserve | Performance | Disabled
  datatype Relation = Equal | Greater | Lesser | LesserOrEqual | GreaterOrEqual

  const CONSECUTIVE_CRITICAL_EVENTS := 4
  const DEFAULT_SENSOR := 0xFFFF

  /** The trip's configuration; temperatures are unsigned 32-bit values. */
  datatype Trip = Trip(kind: Kind, temp: nat, hyst: nat, sequential: bool, sensor: int,
                       depends: Option<(Relation, int)>, ignoreCritical: bool)

  /** A device bound to the trip. */
  datatype Binding = Binding(period: int, lastOp: int, target: int)

  /** What a device answers when the trip walks by. */
  datatype View = View(inMin: bool, inMax: bool, min: int)

  /** A call of thd_cdev_set_state. */
  datatype DeviceCall = DeviceCall(index: nat, on: bool, target: int)

  datatype Reading = Reading(sensor: int, temp: nat, pref: Preference, dependState: int, sensorFound: bool, now: int,
                             views: seq<View>)

  datatype State = State(tripOn: bool, pollOn: bool, crit: nat, bindings: seq<Binding>)

  datatype Action = NoAction | PowerOff | Suspend

  /** used is the return value. */
  datatype Outcome = Outcome(used: bool, reset: bool, action: Action, calls: seq<DeviceCall>)

  predicate Related(rel: Relation, state: int, bound: int)
  {
    match rel
    case Equal => state == bound
    case Greater => state > bound
    case Lesser => state < bound
    case LesserOrEqual => state <= bound
    case GreaterOrEqual => state >= bound
  }

  /** The reading is for this trip: its sensor matches, and what it depends on is met. */
  predicate Accepts(t: Trip, r: Reading)
  {
    t.kind != Invalid && (t.sensor == DEFAULT_SENSOR || t.sensor == r.sensor) &&
    (t.depends.Some? && r.temp >= t.temp ==> Related(t.depends.value.0, r.dependState, t.depends.value.1))
  }

  predicate IsUrgent(t: Trip) { t.kind == Critical || t.kind == Hot }

  predicate IsHot(t: Trip, r: Reading) { r.temp >= t.temp }

  predicate Polls(t: Trip) { t.kind == Polling && t.sensor != DEFAULT_SENSOR }

  /** The preference decides which kinds control devices. */
  predicate Applies(t: Trip, r: Reading)
  {
    match r.pref
    case Disabled => false
    case Performance => t.kind == Active || t.kind == Max
    case EnergyConserve => t.kind == Passive || t.kind == Max
  }

  /** read_temp + hyst < temp, in 32 bits. */
  predicate Below(t: Trip, temp: nat) { (temp + t.hyst) % 0x1_0000_0000 < t.temp }

  // ---- Walking the devices ----

  function TargetOf(b: Binding, v: View): int { if b.target == CoolingDevice.INVALID_TARGET then v.min else b.target }

  predicate TooEarly(b: Binding, now: int) { b.period != 0 && now - b.lastOp < b.period }

  /** The walk stops at a device whose sampling period has not passed. */
  predicate Reaches(bs: seq<Binding>, views: seq<View>, sequential: bool, now: int, i: nat)
    requires i <= |bs| == |views|
  {
    forall k | 0 <= k < i :: !TooEarly(bs[k], now) && (sequential ==> views[k].inMax)
  }

  predicate CallsOn(bs: seq<Binding>, views: seq<View>, sequential: bool, now: int, i: nat)
    requires i < |bs| == |views|
  {
    Reaches(bs, views, sequential, now, i) && !TooEarly(bs[i], now) && !views[i].inMax
  }

  predicate CallsOff(bs: seq<Binding>, views: seq<View>, sequential: bool, i: nat)
    requires i < |bs| == |views|
  {
    !views[i].inMin && (sequential ==> forall k | i < k < |bs| :: views[k].inMin)
  }

  /** One call for each device of the set, with its target, in the order of the walk. */
  ghost predicate AreCalls(calls: seq<DeviceCall>, on: bool, called: set<nat>, bs: seq<Binding>, views: seq<View>)
    requires |bs| == |views|
  {
    (forall k | 0 <= k < |calls| :: calls[k].index in called && calls[k].index < |bs| && calls[k].on == on &&
                                    calls[k].target == TargetOf(bs[calls[k].index], views[calls[k].index])) &&
    (forall i | i in called :: exists k | 0 <= k < |calls| :: calls[k].index == i) &&
    (forall j, k | 0 <= j < k < |calls| ::
       if on then calls[j].index < calls[k].index else calls[j].index > calls[k].index)
  }

  // ---- One reading ----

  datatype Move = Stay | On | Off

  datatype Visit = Early | Skipped | Called(target: int)

  /** Where the reading puts a trip that controls devices. */
  function MoveOf(t: Trip, tripOn: bool, temp: nat): Move
  {
    if temp >= t.temp then On
    else if tripOn && !Below(t, temp) then Stay
    else Off
  }

  /** The count and what is done, of a critical or hot trip. */
  function Urgent(t: Trip, crit: nat, r: Reading): (nat, Action)
  {
    if t.ignoreCritical || !IsHot(t, r) then (0, NoAction)
    else if crit < CONSECUTIVE_CRITICAL_EVENTS then (crit + 1, NoAction)
    else (0, if t.kind == Critical then PowerOff else Suspend)
  }

  /** The reading moves the trip's switch. */
  predicate Counts(t: Trip, r: Reading) { Accepts(t, r) && Applies(t, r) }

  function OnAfter(t: Trip, on: bool, r: Reading): bool
  {
    if Counts(t, r) && !MoveOf(t, on, r.temp).Stay? then MoveOf(t, on, r.temp).On? else on
  }

  function CritAfter(t: Trip, crit: nat, r: Reading): nat
  {
    if Accepts(t, r) && IsUrgent(t) then Urgent(t, crit, r).0 else crit
  }

  class CTrip {
    const trip: Trip
    var tripOn: bool
    var pollOn: bool
    var critCount: nat
    var bindings: seq<Binding>

    constructor (t: Trip, bs: seq<Binding>)
      ensures trip == t && Now() == State(false, false, 0, bs)
    {
      trip, tripOn, pollOn, critCount, bindings := t, false, false, 0, bs;
    }

    ghost function Now(): State reads this { State(tripOn, pollOn, critCount, bindings) }

    /** thd_trip_point_check. */
    method Check(r: Reading) returns (o: Outcome)
      requires |r.views| == |bindings|
      modifies this
      ensures Checks(trip, old(Now()), r, Now(), o)
    {
      o := Outcome(false, false, NoAction, []);
      if trip.kind == Invalid {
        return;
      }
      if trip.depends.Some? && r.temp >= trip.temp {
        var (rel, bound) := trip.depends.value;
        var valid := false;
        match rel {
          case Equal => if r.dependState == bound { valid := true; }
          case Greater => if r.dependState > bound { valid := true; }
          case Lesser => if r.dependState < bound { valid := true; }
          case LesserOrEqual => if r.dependState <= bound { valid := true; }
          case GreaterOrEqual => if r.dependState >= bound { valid := true; }
        }
        if !valid {
          return;
        }
      }
      if trip.sensor != DEFAULT_SENSOR && trip.sensor != r.sensor {
        return;
      }
      if trip.kind == Critical || trip.kind == Hot {
        o := CheckUrgent(r);
        return;
      }
      if trip.kind == Polling && trip.sensor != DEFAULT_SENSOR {
        o := CheckPolling(r);
        return;
      }
      var apply := false;
      match r.pref {
        case Disabled => return;
        case Performance => apply := trip.kind == Active || trip.kind == Max;
        case EnergyConserve => apply := trip.kind == Passive || trip.kind == Max;
      }
      if apply {
        o := Control(r);
      }
    }

    method CheckUrgent(r: Reading) returns (o: Outcome)
      requires IsUrgent(trip)
      modifies this`critCount
      ensures critCount == Urgent(trip, old(critCount), r).0
      ensures o == Outcome(!trip.ignoreCritical && IsHot(trip, r), false, Urgent(trip, old(critCount), r).1, [])
    {
      if !trip.ignoreCritical && r.temp >= trip.temp {
        if critCount < CONSECUTIVE_CRITICAL_EVENTS {
          critCount := critCount + 1;
          return Outcome(true, false, NoAction, []);
        }
        critCount := 0;
        return Outcome(true, false, if trip.kind == Critical then PowerOff else Suspend, []);
      }
      critCount := 0;
      o := Outcome(false, false, NoAction, []);
    }

    method CheckPolling(r: Reading) returns (o: Outcome)
      modifies this`pollOn
      ensures pollOn == if r.sensorFound then IsHot(trip, r) else old(pollOn)
      ensures o == Outcome(true, r.sensorFound && old(pollOn) && !pollOn, NoAction, [])
    {
      o := Outcome(true, false, NoAction, []);
      if r.sensorFound {
        if !pollOn && r.temp >= trip.temp {
          pollOn := true;
        } else if pollOn && r.temp < trip.temp {
          pollOn := false;
          o := Outcome(true, true, NoAction, []);
        }
      }
    }

    method Control(r: Reading) returns (o: Outcome)
      requires |r.views| == |bindings|
      modifies this`tripOn, this`bindings
      ensures o.used && !o.reset && o.action == NoAction
      ensures Controlled(trip, old(Now()), r, Now(), MoveOf(trip, old(tripOn), r.temp), o.calls)
    {
      var calls := [];
      if r.temp >= trip.temp {
        tripOn := true;
        calls := WalkOn(r);
      } else if (tripOn && (r.temp + trip.hyst) % 0x1_0000_0000 < trip.temp) || (!tripOn && r.temp < trip.temp) {
        tripOn := false;
        calls := WalkOff(r);
      }
      o := Outcome(true, false, NoAction, calls);
    }

    method WalkOn(r: Reading) returns (calls: seq<DeviceCall>)
      requires |r.views| == |bindings|
      modifies this`bindings
      ensures |bindings| == |old(bindings)| &&
              forall i | 0 <= i < |bindings| :: bindings[i] == AfterOn(trip, old(Now()), r, i)
      ensures AreCalls(calls, true, OnSet(trip, old(Now()), r), old(bindings), r.views)
    {
      calls := [];
      ghost var s := Now();
      var n := |bindings|;
      for i := 0 to n
        invariant |bindings| == n && (forall k | i <= k < n :: bindings[k] == s.bindings[k])
        invariant forall k | 0 <= k < i :: bindings[k] == AfterOn(trip, s, r, k)
        invariant Reaches(s.bindings, r.views, trip.sequential, r.now, i)
        invariant AreCalls(calls, true, Upto(OnSet(trip, s, r), i), s.bindings, r.views)
      {
        var visit := VisitOn(i, r.views[i], r.now);
        assert bindings[i] == AfterOn(trip, s, r, i);
        match visit
        case Early =>
          OnStops(trip, s, r, i, i);
          return;
        case Skipped =>
          SkipCall(calls, true, OnSet(trip, s, r), s.bindings, r.views, i);
        case Called(target) =>
          AddCall(calls, true, Upto(OnSet(trip, s, r), i), s.bindings, r.views, i);
          calls := calls + [DeviceCall(i, true, target)];
          OnAdds(trip, s, r, i);
          if trip.sequential {
            OnStops(trip, s, r, i, i + 1);
            return;
          }
      }
      assert Upto(OnSet(trip, s, r), n) == OnSet(trip, s, r);
    }

    /** One device of an activation's walk. */
    method VisitOn(i: nat, v: View, now: int) returns (visit: Visit)
      requires i < |bindings|
      modifies this`bindings
      ensures var b := old(bindings)[i];
              visit == (if TooEarly(b, now) then Early else if v.inMax then Skipped else Called(TargetOf(b, v))) &&
              bindings == if visit.Early? then old(bindings) else
                            old(bindings)[i := b.(lastOp := if b.period != 0 then now else b.lastOp,
                                                  target := if v.inMax then b.target else TargetOf(b, v))]
    {
      var b := bindings[i];
      if b.period != 0 {
        if now - b.lastOp < b.period {
          return Early;
        }
        bindings := bindings[i := b.(lastOp := now)];
      }
      if v.inMax {
        return Skipped;
      }
      var target := TakeTarget(i, v);
      visit := Called(target);
    }

    method WalkOff(r: Reading) returns (calls: seq<DeviceCall>)
      requires |r.views| == |bindings|
      modifies this`bindings
      ensures |bindings| == |old(bindings)| &&
              forall i | 0 <= i < |bindings| :: bindings[i] == AfterOff(trip, old(Now()), r, i)
      ensures AreCalls(calls, false, OffSet(trip, old(Now()), r), old(bindings), r.views)
    {
      calls := [];
      ghost var s := Now();
      var n := |bindings|;
      var i := n;
      while i > 0
        invariant 0 <= i <= n == |bindings| && (forall k | 0 <= k < i :: bindings[k] == s.bindings[k])
        invariant forall k | i <= k < n :: bindings[k] == AfterOff(trip, s, r, k)
        invariant trip.sequential ==> forall k | i <= k < n :: r.views[k].inMin
        invariant AreCalls(calls, false, From(OffSet(trip, s, r), i), s.bindings, r.views)
      {
        i := i - 1;
        var b, v := bindings[i], r.views[i];
        if v.inMin {
          OffSkips(trip, s, r, i);
          continue;
        }
        var target := TakeTarget(i, v);
        AddCall(calls, false, From(OffSet(trip, s, r), i + 1), s.bindings, r.views, i);
        calls := calls + [DeviceCall(i, false, target)];
        OffAdds(trip, s, r, i);
        if trip.sequential {
          return;
        }
      }
      assert From(OffSet(trip, s, r), 0) == OffSet(trip, s, r);
    }

    /** A binding without a target gets the device's minimum. */
    method TakeTarget(i: nat, v: View) returns (target: int)
      requires i < |bindings|
      modifies this`bindings
      ensures target == TargetOf(old(bindings)[i], v) &&
              bindings == old(bindings)[i := old(bindings)[i].(target := target)]
    {
      if bindings[i].target == CoolingDevice.INVALID_TARGET {
        bindings := bindings[i := bindings[i].(target := v.min)];
      }
      target := bindings[i].target;
    }
  }

  /** The devices an activation calls. */
  ghost function OnSet(t: Trip, s: State, r: Reading): set<nat>
    requires |r.views| == |s.bindings|
  {
    set i: nat | i < |s.bindings| && CallsOn(s.bindings, r.views, t.sequential, r.now, i)
  }

  ghost function OffSet(t: Trip, s: State, r: Reading): set<nat>
    requires |r.views| == |s.bindings|
  {
    set i: nat | i < |s.bindings| && CallsOff(s.bindings, r.views, t.sequential, i)
  }

  ghost function Upto(called: set<nat>, n: nat): set<nat> { set i | i in called && i < n }

  ghost function From(called: set<nat>, n: nat): set<nat> { set i | i in called && i >= n }

  /** Binding i after an activation: the clock of a device the walk gets to, the target of one it calls. */
  ghost function AfterOn(t: Trip, s: State, r: Reading, i: nat): Binding
    requires i < |s.bindings| == |r.views|
  {
    var b := s.bindings[i];
    if !Reaches(s.bindings, r.views, t.sequential, r.now, i) || TooEarly(b, r.now) then b
    else
      b.(lastOp := if b.period != 0 then r.now else b.lastOp,
         target := if r.views[i].inMax then b.target else TargetOf(b, r.views[i]))
  }

  ghost function AfterOff(t: Trip, s: State, r: Reading, i: nat): Binding
    requires i < |s.bindings| == |r.views|
  {
    var b := s.bindings[i];
    if CallsOff(s.bindings, r.views, t.sequential, i) then b.(target := TargetOf(b, r.views[i])) else b
  }

  /** The calls of one move from s, and the switch and the bindings after it. */
  ghost predicate Controlled(t: Trip, s: State, r: Reading, s': State, m: Move, calls: seq<DeviceCall>)
    requires |r.views| == |s.bindings|
  {
    match m
    case Stay => s' == s && calls == []
    case On => s' == s.(tripOn := true, bindings := s'.bindings) && |s'.bindings| == |s.bindings| &&
               (forall i | 0 <= i < |s.bindings| :: s'.bindings[i] == AfterOn(t, s, r, i)) &&
               AreCalls(calls, true, OnSet(t, s, r), s.bindings, r.views)
    case Off => s' == s.(tripOn := false, bindings := s'.bindings) && |s'.bindings| == |s.bindings| &&
                (forall i | 0 <= i < |s.bindings| :: s'.bindings[i] == AfterOff(t, s, r, i)) &&
                AreCalls(calls, false, OffSet(t, s, r), s.bindings, r.views)
  }

  /** One reading takes the trip from s to s' with outcome o. */
  ghost predicate Checks(t: Trip, s: State, r: Reading, s': State, o: Outcome)
    requires |r.views| == |s.bindings|
  {
    if !Accepts(t, r) then s' == s && o == Outcome(false, false, NoAction, [])
    else if IsUrgent(t) then
      s' == s.(crit := Urgent(t, s.crit, r).0) &&
      o == Outcome(!t.ignoreCritical && IsHot(t, r), false, Urgent(t, s.crit, r).1, [])
    else if Polls(t) then
      s' == s.(pollOn := if r.sensorFound then IsHot(t, r) else s.pollOn) &&
      o == Outcome(true, r.sensorFound && s.pollOn && !s'.pollOn, NoAction, [])
    else if Applies(t, r) then
      o == Outcome(true, false, NoAction, o.calls) && Controlled(t, s, r, s', MoveOf(t, s.tripOn, r.temp), o.calls)
    else
      s' == s && o == Outcome(false, false, NoAction, [])
  }

  lemma OnAdds(t: Trip, s: State, r: Reading, i: nat)
    requires |r.views| == |s.bindings| && i < |s.bindings| && CallsOn(s.bindings, r.views, t.sequential, r.now, i)
    ensures Upto(OnSet(t, s, r), i + 1) == Upto(OnSet(t, s, r), i) + {i}
  {
  }

  lemma OffSkips(t: Trip, s: State, r: Reading, i: nat)
    requires |r.views| == |s.bindings| && i < |s.bindings| && r.views[i].inMin
    ensures From(OffSet(t, s, r), i) == From(OffSet(t, s, r), i + 1)
  {
  }

  lemma OffAdds(t: Trip, s: State, r: Reading, i: nat)
    requires |r.views| == |s.bindings| && i < |s.bindings| && CallsOff(s.bindings, r.views, t.sequential, i)
    ensures From(OffSet(t, s, r), i) == From(OffSet(t, s, r), i + 1) + {i}
    ensures t.sequential ==> From(OffSet(t, s, r), i) == OffSet(t, s, r)
  {
  }

  lemma OnStops(t: Trip, s: State, r: Reading, i: nat, n: nat)
    requires |r.views| == |s.bindings| && i < |s.bindings| && i <= n <= i + 1
    requires if n == i then TooEarly(s.bindings[i], r.now) else t.sequential && !r.views[i].inMax
    ensures Upto(OnSet(t, s, r), n) == OnSet(t, s, r)
    ensures forall k | i < k < |s.bindings| :: AfterOn(t, s, r, k) == s.bindings[k]
  {
    forall k: nat | k in OnSet(t, s, r) ensures k < n { assert CallsOn(s.bindings, r.views, t.sequential, r.now, k); }
  }

  lemma AddCall(calls: seq<DeviceCall>, on: bool, called: set<nat>, bs: seq<Binding>, views: seq<View>, i: nat)
    requires i < |bs| == |views| && AreCalls(calls, on, called, bs, views) &&
             forall k | k in called :: if on then k < i else k > i
    ensures AreCalls(calls + [DeviceCall(i, on, TargetOf(bs[i], views[i]))], on, called + {i}, bs, views)
  {
    var calls' := calls + [DeviceCall(i, on, TargetOf(bs[i], views[i]))];
    forall x | x in called + {i} ensures exists k | 0 <= k < |calls'| :: calls'[k].index == x {
      if x in called {
        var k :| 0 <= k < |calls| && calls[k].index == x;
        assert calls'[k].index == x;
      } else {
        assert calls'[|calls|].index == x;
      }
    }
  }

  lemma SkipCall(calls: seq<DeviceCall>, on: bool, called: set<nat>, bs: seq<Binding>, views: seq<View>, i: nat)
    requires |bs| == |views| && AreCalls(calls, on, Upto(called, i), bs, views) && i !in called
    ensures AreCalls(calls, on, Upto(called, i + 1), bs, views)
  {
    assert Upto(called, i) == Upto(called, i + 1);
  }

  // ---- Whole histories ----

  function OnAt(t: Trip, rs: seq<Reading>, n: nat): bool
    requires n <= |rs|
  {
    n > 0 && OnAfter(t, OnAt(t, rs, n - 1), rs[n - 1])
  }

  predicate InBand(t: Trip, temp: nat) { t.temp <= temp + t.hyst && temp < t.temp }

  /** The sum of a reading below the trip and the hysteresis does not wrap. */
  predicate NoWrap(t: Trip) { t.temp == 0 || t.temp + t.hyst <= 0x1_0000_0000 }

  /** That is exactly when the code's comparison is the intended one. */
  lemma BelowIsPlain(t: Trip)
    requires t.temp < 0x1_0000_0000 && t.hyst < 0x1_0000_0000
    ensures (forall temp: nat | temp < t.temp :: Below(t, temp) <==> temp + t.hyst < t.temp) <==> NoWrap(t)
  {
    if !NoWrap(t) {
      var temp := t.temp - 1;
      assert temp + t.hyst - 0x1_0000_0000 < t.temp;
      assert Below(t, temp) && !(temp + t.hyst < t.temp);
    }
  }

  /** A switched-on trip ignores exactly the readings in the band. */
  lemma StaysInBand(t: Trip, on: bool, temp: nat)
    requires NoWrap(t) && t.temp < 0x1_0000_0000
    ensures MoveOf(t, on, temp).Stay? <==> on && InBand(t, temp)
    ensures MoveOf(t, on, temp).On? <==> temp >= t.temp
  {
  }

  /** The latest counted reading outside the band, of the first n, was at or above the trip. */
  ghost predicate LatestWasHot(t: Trip, rs: seq<Reading>, n: nat)
    requires n <= |rs|
  {
    exists k | 0 <= k < n :: Counts(t, rs[k]) && rs[k].temp >= t.temp && SinceInBand(t, rs, k + 1, n)
  }

  ghost predicate SinceInBand(t: Trip, rs: seq<Reading>, a: nat, n: nat)
    requires n <= |rs|
  {
    forall j | a <= j < n :: Counts(t, rs[j]) ==> InBand(t, rs[j].temp)
  }

  /** The trip is a Schmitt trigger over every history of readings. */
  lemma {:induction false} IsSchmittTrigger(t: Trip, rs: seq<Reading>, n: nat)
    requires NoWrap(t) && t.temp < 0x1_0000_0000 && n <= |rs|
    ensures OnAt(t, rs, n) <==> LatestWasHot(t, rs, n)
  {
    if n > 0 {
      IsSchmittTrigger(t, rs, n - 1);
      var r := rs[n - 1];
      StaysInBand(t, OnAt(t, rs, n - 1), r.temp);
      if Counts(t, r) && r.temp >= t.temp {
        assert SinceInBand(t, rs, n, n);
      } else if OnAt(t, rs, n) {
        var k :| 0 <= k < n - 1 && Counts(t, rs[k]) && rs[k].temp >= t.temp && SinceInBand(t, rs, k + 1, n - 1);
        assert SinceInBand(t, rs, k + 1, n);
      }
    }
  }

  /** The kinds that control devices. */
  predicate Controls(t: Trip) { t.kind == Max || t.kind == Passive || t.kind == Active }

  /** A device state that meets the dependency. */
  function Meeting(t: Trip): int
  {
    match t.depends
    case None => 0
    case Some((rel, bound)) => if rel.Greater? then bound + 1 else if rel.Lesser? then bound - 1 else bound
  }

  /** A reading that counts. */
  function CountedReading(t: Trip, temp: nat): (r: Reading)
    ensures r.temp == temp && (Controls(t) ==> Counts(t, r))
  {
    Reading(t.sensor, temp, if t.kind == Passive then EnergyConserve else Performance, Meeting(t), true, 0, [])
  }

  ghost predicate AlwaysSchmitt(t: Trip)
  {
    forall rs, n: nat | n <= |rs| :: OnAt(t, rs, n) <==> LatestWasHot(t, rs, n)
  }

  /** A trip that controls devices is one over every history if and only if the sum does not wrap:
      otherwise a reading just below the trip switches it off. */
  lemma SchmittIsExact(t: Trip)
    requires t.temp < 0x1_0000_0000 && t.hyst < 0x1_0000_0000
    ensures AlwaysSchmitt(t) <==> NoWrap(t) || !Controls(t)
  {
    if NoWrap(t) {
      forall rs, n: nat | n <= |rs| ensures OnAt(t, rs, n) <==> LatestWasHot(t, rs, n) { IsSchmittTrigger(t, rs, n); }
    } else if !Controls(t) {
      forall rs, n: nat | n <= |rs| ensures !OnAt(t, rs, n) && !LatestWasHot(t, rs, n) { NeverOn(t, rs, n); }
    } else {
      var rs := [CountedReading(t, t.temp), CountedReading(t, t.temp - 1)];
      WrapSwitchesOff(t, rs);
    }
  }

  lemma {:induction false} NeverOn(t: Trip, rs: seq<Reading>, n: nat)
    requires !Controls(t) && n <= |rs|
    ensures !OnAt(t, rs, n) && !LatestWasHot(t, rs, n)
  {
    if n > 0 { NeverOn(t, rs, n - 1); }
  }

  lemma WrapSwitchesOff(t: Trip, rs: seq<Reading>)
    requires t.temp < 0x1_0000_0000 && t.hyst < 0x1_0000_0000 && !NoWrap(t) && |rs| == 2
    requires Counts(t, rs[0]) && Counts(t, rs[1]) && rs[0].temp == t.temp && rs[1].temp == t.temp - 1
    ensures !OnAt(t, rs, 2) && LatestWasHot(t, rs, 2)
  {
    assert Below(t, t.temp - 1);
    assert OnAt(t, rs, 1);
    assert SinceInBand(t, rs, 1, 2);
  }

  // ---- Critical trips ----

  function CritAt(t: Trip, rs: seq<Reading>, n: nat): nat
    requires n <= |rs|
  {
    if n == 0 then 0 else CritAfter(t, CritAt(t, rs, n - 1), rs[n - 1])
  }

  /** How many accepted readings at or above the trip end the first n. */
  function HotRun(t: Trip, rs: seq<Reading>, n: nat): nat
    requires n <= |rs|
  {
    if n == 0 then 0
    else if !Accepts(t, rs[n - 1]) then HotRun(t, rs, n - 1)
    else if IsHot(t, rs[n - 1]) then HotRun(t, rs, n - 1) + 1
    else 0
  }

  predicate Fires(t: Trip, rs: seq<Reading>, n: nat)
    requires n < |rs|
  {
    Accepts(t, rs[n]) && Urgent(t, CritAt(t, rs, n), rs[n]).1 != NoAction
  }

  lemma UrgentStep(t: Trip, run: nat, r: Reading)
    requires IsUrgent(t) && !t.ignoreCritical && IsHot(t, r)
    ensures Urgent(t, run % 5, r) ==
            ((run + 1) % 5, if (run + 1) % 5 != 0 then NoAction else if t.kind == Critical then PowerOff else Suspend)
  {
  }

  lemma {:induction false} CountIsRun(t: Trip, rs: seq<Reading>, n: nat)
    requires IsUrgent(t) && !t.ignoreCritical && n <= |rs|
    ensures CritAt(t, rs, n) == HotRun(t, rs, n) % 5
  {
    if n > 0 {
      CountIsRun(t, rs, n - 1);
      if IsHot(t, rs[n - 1]) { UrgentStep(t, HotRun(t, rs, n - 1), rs[n - 1]); }
    }
  }

  /** A critical trip powers off, and a hot one suspends, exactly with every fifth reading in a
      row at or above its temperature. */
  lemma FiresEveryFifth(t: Trip, rs: seq<Reading>, n: nat)
    requires IsUrgent(t) && !t.ignoreCritical && n < |rs|
    ensures Fires(t, rs, n) <==> Accepts(t, rs[n]) && IsHot(t, rs[n]) && HotRun(t, rs, n + 1) % 5 == 0
    ensures Fires(t, rs, n) ==> Urgent(t, CritAt(t, rs, n), rs[n]).1 == if t.kind == Critical then PowerOff else Suspend
  {
    CountIsRun(t, rs, n);
    if Accepts(t, rs[n]) && IsHot(t, rs[n]) {
      RunGrows(t, rs, n);
      UrgentStep(t, HotRun(t, rs, n), rs[n]);
    }
  }

  lemma RunGrows(t: Trip, rs: seq<Reading>, n: nat)
    requires n < |rs| && Accepts(t, rs[n]) && IsHot(t, rs[n])
    ensures HotRun(t, rs, n + 1) == HotRun(t, rs, n) + 1
  {
  }
}
