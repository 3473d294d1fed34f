/** The energy meter: an unbounded total rebuilt from a counter that wraps, with a flag that
    remembers that the counter was past the middle of its range. Energies are in millijoules
    except for the readings, which are in microjoules. */
module Rapl {
  import opened Words

  datatype Domain = Domain(kind: nat, range: nat, threshold: nat, halfWay: bool, cumulative: nat, counter: nat)

  /** A domain as it is first listed. */
  function NewDomain(kind: nat): Domain { Domain(kind, 0, 0, false, 0, 0) }

  /** The range is asked for until it is known; None is a failed read. */
  function WithRange(d: Domain, rangeUj: Option<nat>): Domain
  {
    if d.range != 0 then d
    else
      var range := if rangeUj.Some? then rangeUj.value / 1000 else 0;
      d.(range := range, threshold := range / 2)
  }

  function Counted(d: Domain, energyUj: nat): Domain
  {
    var counter := energyUj / 1000;
    if d.halfWay && counter < d.threshold then
      d.(counter := counter, cumulative := d.cumulative + d.range, halfWay := false)
    else d.(counter := counter, halfWay := d.halfWay || counter > d.threshold)
  }

  function Sample(d: Domain, rangeUj: Option<nat>, energyUj: Option<nat>): Domain
  {
    var d := WithRange(d, rangeUj);
    if energyUj.Some? then Counted(d, energyUj.value) else d
  }

  function SampleAll(ds: seq<Domain>, rangesUj: seq<Option<nat>>, energiesUj: seq<Option<nat>>): seq<Domain>
    requires |rangesUj| == |energiesUj| == |ds|
  {
    seq(|ds|, i requires 0 <= i < |ds| => Sample(ds[i], rangesUj[i], energiesUj[i]))
  }

  function Total(d: Domain): nat { d.cumulative + d.counter }

  class Meter {
    var domains: seq<Domain>
    var lastTime: int
    var enabled: bool

    constructor (kinds: seq<nat>)
      ensures domains == seq(|kinds|, i requires 0 <= i < |kinds| => NewDomain(kinds[i])) && lastTime == 0 && !enabled
    {
      domains := seq(|kinds|, i requires 0 <= i < |kinds| => Domain(kinds[i], 0, 0, false, 0, 0));
      lastTime, enabled := 0, false;
    }

    /** rangesUj[i] and energiesUj[i] are what reading domain i's files gives now. */
    method EnergyLoop(now: int, rangesUj: seq<Option<nat>>, energiesUj: seq<Option<nat>>) returns (on: bool)
      requires |rangesUj| == |energiesUj| == |domains|
      modifies this`domains, this`lastTime
      ensures on == enabled
      ensures domains == (if enabled && now > old(lastTime) then SampleAll(old(domains), rangesUj, energiesUj)
                          else old(domains))
      ensures lastTime == if enabled && now > old(lastTime) then now else old(lastTime)
    {
      if !enabled {
        return false;
      }
      on := true;
      if now - lastTime <= 0 {
        return;
      }
      for i := 0 to |domains|
        invariant |domains| == |old(domains)|
        invariant forall k | 0 <= k < i :: domains[k] == Sample(old(domains)[k], rangesUj[k], energiesUj[k])
        invariant forall k | i <= k < |domains| :: domains[k] == old(domains)[k]
      {
        var d := domains[i];
        if d.range == 0 {
          if rangesUj[i].Some? { d := d.(range := rangesUj[i].value / 1000); }
          d := d.(threshold := d.range / 2);
        }
        if energiesUj[i].Some? {
          d := d.(counter := energiesUj[i].value / 1000);
          if d.halfWay && d.counter < d.threshold {
            d := d.(cumulative := d.cumulative + d.range, halfWay := false);
          } else if d.counter > d.threshold {
            d := d.(halfWay := true);
          }
        }
        domains := domains[i := d];
      }
      lastTime := now;
    }

    /** The energy of the first domain of a kind, in microjoules; a total of 0 is measured again first. */
    method GetEnergy(kind: nat, now: int, rangesUj: seq<Option<nat>>, energiesUj: seq<Option<nat>>) returns (value: nat)
      requires |rangesUj| == |energiesUj| == |domains|
      modifies this`domains, this`lastTime
      ensures (forall i | 0 <= i < |old(domains)| :: old(domains)[i].kind != kind) ==>
                value == 0 && domains == old(domains) && lastTime == old(lastTime)
      ensures forall i | 0 <= i < |old(domains)| && old(domains)[i].kind == kind &&
                forall k | 0 <= k < i :: old(domains)[k].kind != kind ::
                var again := Total(old(domains)[i]) == 0 && enabled && now > old(lastTime);
                domains == (if again then SampleAll(old(domains), rangesUj, energiesUj) else old(domains)) &&
                lastTime == (if again then now else old(lastTime)) && value == Total(domains[i]) * 1000
    {
      value := 0;
      for i := 0 to |domains|
        invariant domains == old(domains) && lastTime == old(lastTime) && value == 0
        invariant forall k | 0 <= k < i :: domains[k].kind != kind
      {
        if domains[i].kind == kind {
          value := (domains[i].counter + domains[i].cumulative) * 1000;
          if value == 0 {
            var _ := EnergyLoop(now, rangesUj, energiesUj);
            value := (domains[i].counter + domains[i].cumulative) * 1000;
          }
          return;
        }
      }
    }
  }

  // ---- Conservation ----

  /** The domain of range r after a sample at which the true total was e. */
  ghost predicate Accounts(d: Domain, r: nat, e: nat)
  {
    d.range == r > 0 && d.threshold == r / 2 && d.counter == e % r && d.cumulative == e / r * r &&
    (d.halfWay <==> d.counter > d.threshold)
  }

  lemma AccountsForTotal(d: Domain, r: nat, e: nat)
    requires Accounts(d, r, e)
    ensures Total(d) == e
  {
    assert e == r * (e / r) + e % r;
  }

  lemma Lap(e: nat, r: nat)
    requires r > 0
    ensures e == r * (e / r) + e % r && e % r < r && e / r * r == r * (e / r)
  {
  }

  lemma AtLeastOneLap(e: nat, r: nat)
    requires 0 < r <= e
    ensures e / r >= 1
  {
  }

  /** In less than half a range the counter wraps at most once. */
  lemma NextLap(r: nat, e: nat, e': nat)
    requires r > 0 && e <= e' && 2 * (e' - e) < r
    ensures if e % r + (e' - e) < r then e' / r == e / r && e' % r == e % r + (e' - e)
            else e' / r == e / r + 1 && e' % r == e % r + (e' - e) - r
  {
    Lap(e, r);
    Onward(r, e / r, e % r, e' - e, e');
  }

  lemma Onward(r: nat, q: nat, m: nat, g: nat, e': nat)
    requires r > 0 && m < r && 2 * g < r && e' == r * q + m + g
    ensures if m + g < r then e' / r == q && e' % r == m + g else e' / r == q + 1 && e' % r == m + g - r
  {
    if m + g < r {
      ModUnique(e', r, q, m + g);
    } else {
      assert r * (q + 1) == r * q + r;
      ModUnique(e', r, q + 1, m + g - r);
    }
  }

  /** As Accounts, with the flag left open exactly at the middle. */
  ghost predicate AccountsLoosely(d: Domain, r: nat, e: nat)
  {
    d.range == r > 0 && d.threshold == r / 2 && d.counter == e % r && d.cumulative == e / r * r &&
    (d.counter > d.threshold ==> d.halfWay) && (d.halfWay ==> d.counter >= d.threshold)
  }

  lemma SampleAccounts(d: Domain, r: nat, e: nat, e': nat, energyUj: nat)
    requires AccountsLoosely(d, r, e) && e <= e' && 2 * (e' - e) < r && energyUj / 1000 == e' % r
    ensures AccountsLoosely(Counted(d, energyUj), r, e')
    ensures Accounts(d, r, e) ==> Accounts(Counted(d, energyUj), r, e')
  {
    NextLap(r, e, e');
    Lap(e, r);
    Lap(e', r);
    assert (e / r + 1) * r == e / r * r + r;
  }

  /** Half a range between two samples is exactly too much: the account survives a growth g
      from every state if and only if g is less. */
  lemma HalfIsExact(r: nat, g: nat)
    requires r > 0
    ensures (forall d, e: nat | Accounts(d, r, e) :: Accounts(Counted(d, 1000 * ((e + g) % r)), r, e + g)) <==>
              2 * g < r
  {
    if 2 * g < r {
      forall d, e: nat | Accounts(d, r, e) ensures Accounts(Counted(d, 1000 * ((e + g) % r)), r, e + g) {
        SampleAccounts(d, r, e, e + g, 1000 * ((e + g) % r));
      }
    } else {
      var e := if g < r then r - g else 0;
      var d := Domain(0, r, r / 2, false, 0, e);
      ModUnique(e, r, 0, e);
      WrapIsMissed(d, r, e, g);
      assert Accounts(d, r, e);
    }
  }

  /** The counter wraps before it was seen past the middle. */
  lemma WrapIsMissed(d: Domain, r: nat, e: nat, g: nat)
    requires r > 0 && e < r <= e + g && !d.halfWay && d.cumulative == 0
    ensures !Accounts(Counted(d, 1000 * ((e + g) % r)), r, e + g)
  {
    Lap(e + g, r);
    AtLeastOneLap(e + g, r);
    MulMono(r, 1, (e + g) / r);
  }

  // ---- Whole runs ----

  /** One attempt to sample: the true total, and what reading the range and the energy give;
      None where a read fails. */
  datatype Attempt = Attempt(truth: nat, rangeUj: Option<nat>, reading: Option<nat>)

  function After(d: Domain, attempts: seq<Attempt>, n: nat): Domain
    requires n <= |attempts|
  {
    if n == 0 then d else Sample(After(d, attempts, n - 1), attempts[n - 1].rangeUj, attempts[n - 1].reading)
  }

  /** The true total at the last successful sample. */
  function LastTruth(attempts: seq<Attempt>, n: nat): Option<nat>
    requires n <= |attempts|
  {
    if n == 0 then None
    else if attempts[n - 1].reading.Some? then Some(attempts[n - 1].truth)
    else LastTruth(attempts, n - 1)
  }

  /** The range was read in one of the first n attempts. */
  predicate Known(attempts: seq<Attempt>, n: nat)
    requires n <= |attempts|
  {
    n > 0 && (Known(attempts, n - 1) || attempts[n - 1].rangeUj.Some?)
  }

  /** It was when the last successful sample was taken. */
  predicate KnownAtLast(attempts: seq<Attempt>, n: nat)
    requires n <= |attempts|
  {
    n > 0 && if attempts[n - 1].reading.Some? then Known(attempts, n) else KnownAtLast(attempts, n - 1)
  }

  ghost predicate RangesAre(attempts: seq<Attempt>, r: nat)
  {
    forall n | 0 <= n < |attempts| && attempts[n].rangeUj.Some? :: attempts[n].rangeUj.value / 1000 == r
  }

  /** A successful sample shows the truth modulo r; the first is on the first lap, and from the
      last one, at truth e, the truth has grown by less than half of r. */
  predicate SlowSample(a: Attempt, r: nat, last: Option<nat>)
    requires r > 0
  {
    a.reading.Some? ==>
      a.reading.value / 1000 == a.truth % r &&
      match last
      case None => a.truth < r
      case Some(e) => e <= a.truth && 2 * (a.truth - e) < r
  }

  ghost predicate Slow(attempts: seq<Attempt>, r: nat)
    requires r > 0
  {
    RangesAre(attempts, r) && forall n | 0 <= n < |attempts| :: SlowSample(attempts[n], r, LastTruth(attempts, n))
  }

  lemma FirstAccounts(d: Domain, r: nat, e: nat, energyUj: nat)
    requires d.range == r > 0 && d.threshold == r / 2 && d.cumulative == 0 && !d.halfWay && e < r &&
             energyUj / 1000 == e % r
    ensures Accounts(Counted(d, energyUj), r, e)
  {
    ModUnique(e, r, 0, e);
  }

  /** The domain when the last successful sample was at this truth. */
  ghost predicate Tracks(d: Domain, r: nat, known: bool, last: Option<nat>)
  {
    match last
    case Some(e) => known && Accounts(d, r, e) && Total(d) == e
    case None => Total(d) == 0 && !d.halfWay && (known ==> d.range == r) && (!known ==> d.range == 0) &&
                 d.threshold == d.range / 2
  }

  lemma AttemptTracks(d: Domain, r: nat, known: bool, last: Option<nat>, a: Attempt)
    requires r > 0 && Tracks(d, r, known, last) && SlowSample(a, r, last) &&
             (a.rangeUj.Some? ==> a.rangeUj.value / 1000 == r)
    requires a.reading.Some? ==> known || a.rangeUj.Some?
    ensures Tracks(Sample(d, a.rangeUj, a.reading), r, known || a.rangeUj.Some?,
                   if a.reading.Some? then Some(a.truth) else last)
  {
    if a.reading.Some? {
      if last.None? {
        FirstAccounts(WithRange(d, a.rangeUj), r, a.truth, a.reading.value);
      } else {
        SampleAccounts(d, r, last.value, a.truth, a.reading.value);
      }
      AccountsForTotal(Sample(d, a.rangeUj, a.reading), r, a.truth);
    }
  }

  /** When the range is known by the first successful sample, then after every attempt, however
      often the counter wrapped and whichever reads failed, the meter's total is the true one at
      the last successful sample, and the flag tells whether the counter is past the middle. */
  lemma {:induction false} MeterConserves(kind: nat, attempts: seq<Attempt>, r: nat, n: nat)
    requires r > 0 && n <= |attempts| && Slow(attempts, r)
    requires forall k | 0 <= k < |attempts| && attempts[k].reading.Some? :: Known(attempts, k + 1)
    ensures Tracks(After(NewDomain(kind), attempts, n), r, Known(attempts, n), LastTruth(attempts, n))
  {
    if n > 0 {
      MeterConserves(kind, attempts, r, n - 1);
      assert attempts[n - 1].reading.Some? ==> Known(attempts, n - 1 + 1);
      AttemptTracks(After(NewDomain(kind), attempts, n - 1), r, Known(attempts, n - 1), LastTruth(attempts, n - 1),
                    attempts[n - 1]);
    }
  }

  // ---- A range that becomes known late ----

  /** Five millijoules seen with the range unknown, six with it: the meter says 1006. */
  lemma LateRangeCountsTwice(kind: nat)
    ensures Total(Sample(Sample(NewDomain(kind), None, Some(5000)), Some(1_000_000), Some(6000))) == 1006
  {
  }

  /** What a successful sample needs of the truth: the first lap as long as the range is unknown;
      and with the first sample that knows it, the upper half or more, unless nothing was used
      before. */
  predicate InTime(a: Attempt, r: nat, known: bool, knownAtLast: bool, last: Option<nat>)
  {
    a.reading.Some? ==>
      if !known then a.truth < r
      else !knownAtLast && last.Some? && last.value > 0 ==> a.truth >= r / 2
  }

  /** The domain at each stage: a sample with the range known, or none so far, or only samples
      without it, whose threshold of 0 sets the flag at the first millijoule. */
  ghost predicate Stage(d: Domain, r: nat, known: bool, knownAtLast: bool, last: Option<nat>)
  {
    if knownAtLast then known && last.Some? && AccountsLoosely(d, r, last.value)
    else
      d.range == (if known then r else 0) && d.threshold == d.range / 2 && d.cumulative == 0 &&
      match last
      case None => d.counter == 0 && !d.halfWay
      case Some(e) => e < r && d.counter == e && (d.halfWay <==> e > 0)
  }

  lemma LooseTotal(d: Domain, r: nat, e: nat)
    requires AccountsLoosely(d, r, e)
    ensures Total(d) == e
  {
    Lap(e, r);
  }

  lemma StageTotal(d: Domain, r: nat, known: bool, knownAtLast: bool, last: Option<nat>)
    requires Stage(d, r, known, knownAtLast, last)
    ensures last.Some? ==> Total(d) == last.value
  {
    if knownAtLast { LooseTotal(d, r, last.value); }
  }

  /** e is the truth at the last sample, 0 if there was none. */
  lemma LateSample(d: Domain, r: nat, e: nat, e': nat, energyUj: nat)
    requires d.range == r > 0 && d.threshold == r / 2 && d.cumulative == 0 && d.counter == e < r &&
             (d.halfWay <==> e > 0)
    requires energyUj / 1000 == e' % r && e <= e' && (2 * (e' - e) < r || (e == 0 && e' < r))
    ensures Total(Counted(d, energyUj)) == e' <==> (e > 0 ==> e' >= r / 2)
    ensures (e > 0 ==> e' >= r / 2) ==> AccountsLoosely(Counted(d, energyUj), r, e')
  {
    if e' < r { ModUnique(e', r, 0, e'); } else { ModUnique(e', r, 1, e' - r); }
  }

  lemma EarlySample(d: Domain, r: nat, e: nat, e': nat, energyUj: nat)
    requires r > 0 && d.range == 0 && d.threshold == 0 && d.cumulative == 0 && d.counter == e < r &&
             (d.halfWay <==> e > 0)
    requires energyUj / 1000 == e' % r && e <= e'
    ensures Total(Counted(d, energyUj)) == e' <==> e' < r
    ensures e' < r ==>
              var d' := Counted(d, energyUj); d'.cumulative == 0 && d'.counter == e' && (d'.halfWay <==> e' > 0)
  {
    Lap(e', r);
    if e' < r { ModUnique(e', r, 0, e'); }
  }

  lemma AttemptIsExact(d: Domain, r: nat, known: bool, knownAtLast: bool, last: Option<nat>, a: Attempt)
    requires r > 0 && Stage(d, r, known, knownAtLast, last) && SlowSample(a, r, last) &&
             (a.rangeUj.Some? ==> a.rangeUj.value / 1000 == r)
    ensures var known' := known || a.rangeUj.Some?; var d' := Sample(d, a.rangeUj, a.reading);
            (a.reading.Some? ==> (Total(d') == a.truth <==> InTime(a, r, known', knownAtLast, last))) &&
            (InTime(a, r, known', knownAtLast, last) ==>
               Stage(d', r, known', if a.reading.Some? then known' else knownAtLast,
                     if a.reading.Some? then Some(a.truth) else last))
  {
    if a.reading.Some? {
      var d1, e := WithRange(d, a.rangeUj), if last.Some? then last.value else 0;
      if knownAtLast {
        SampleAccounts(d, r, e, a.truth, a.reading.value);
        LooseTotal(Counted(d, a.reading.value), r, a.truth);
      } else if known || a.rangeUj.Some? {
        LateSample(d1, r, e, a.truth, a.reading.value);
      } else {
        EarlySample(d1, r, e, a.truth, a.reading.value);
      }
    }
  }

  predicate InTimeAt(attempts: seq<Attempt>, r: nat, k: nat)
    requires k < |attempts|
  {
    InTime(attempts[k], r, Known(attempts, k + 1), KnownAtLast(attempts, k), LastTruth(attempts, k))
  }

  predicate RightAt(kind: nat, attempts: seq<Attempt>, k: nat)
    requires k <= |attempts|
  {
    LastTruth(attempts, k).Some? ==> Total(After(NewDomain(kind), attempts, k)) == LastTruth(attempts, k).value
  }

  lemma {:induction false} InTimeStage(kind: nat, attempts: seq<Attempt>, r: nat, n: nat)
    requires r > 0 && n <= |attempts| && Slow(attempts, r) && AllInTime(attempts, r, n)
    ensures Stage(After(NewDomain(kind), attempts, n), r, Known(attempts, n), KnownAtLast(attempts, n),
                  LastTruth(attempts, n))
  {
    if n > 0 {
      InTimeStage(kind, attempts, r, n - 1);
      NextAttempt(kind, attempts, r, n - 1);
      assert InTimeAt(attempts, r, n - 1);
    }
  }

  lemma NextAttempt(kind: nat, attempts: seq<Attempt>, r: nat, n: nat)
    requires r > 0 && n < |attempts| && Slow(attempts, r)
    requires Stage(After(NewDomain(kind), attempts, n), r, Known(attempts, n), KnownAtLast(attempts, n),
                   LastTruth(attempts, n))
    ensures InTimeAt(attempts, r, n) ==>
              Stage(After(NewDomain(kind), attempts, n + 1), r, Known(attempts, n + 1), KnownAtLast(attempts, n + 1),
                    LastTruth(attempts, n + 1))
    ensures RightAt(kind, attempts, n + 1) <==> InTimeAt(attempts, r, n)
  {
    var d := After(NewDomain(kind), attempts, n);
    StageTotal(d, r, Known(attempts, n), KnownAtLast(attempts, n), LastTruth(attempts, n));
    AttemptIsExact(d, r, Known(attempts, n), KnownAtLast(attempts, n), LastTruth(attempts, n), attempts[n]);
  }

  /** Whatever reads fail, the total is right after each of the first n attempts if and only if
      each of their samples was in time. */
  lemma {:induction false} MeterIsExact(kind: nat, attempts: seq<Attempt>, r: nat, n: nat)
    requires r > 0 && n <= |attempts| && Slow(attempts, r)
    ensures AllRight(kind, attempts, n) <==> AllInTime(attempts, r, n)
  {
    if n > 0 {
      MeterIsExact(kind, attempts, r, n - 1);
      assert AllRight(kind, attempts, n) <==> AllRight(kind, attempts, n - 1) && RightAt(kind, attempts, n);
      assert AllInTime(attempts, r, n) <==> AllInTime(attempts, r, n - 1) && InTimeAt(attempts, r, n - 1);
      if AllInTime(attempts, r, n - 1) {
        InTimeStage(kind, attempts, r, n - 1);
        NextAttempt(kind, attempts, r, n - 1);
      }
    }
  }

  ghost predicate AllRight(kind: nat, attempts: seq<Attempt>, n: nat)
    requires n <= |attempts|
  {
    forall k | 0 <= k <= n :: RightAt(kind, attempts, k)
  }

  ghost predicate AllInTime(attempts: seq<Attempt>, r: nat, n: nat)
    requires n <= |attempts|
  {
    forall k | 0 <= k < n :: InTimeAt(attempts, r, k)
  }

  // ---- A register in microjoules ----

  /** The domain after a sample at which t microjoules had been used, read from a register that
      holds t modulo m. */
  ghost predicate AccountsUj(d: Domain, m: nat, t: nat)
  {
    m >= 1000 && d.range == m / 1000 && d.threshold == d.range / 2 && d.counter == t % m / 1000 &&
    d.cumulative == t / m * (m / 1000) && (d.halfWay <==> d.counter > d.threshold)
  }

  lemma Thousandths(x: nat)
    ensures 1000 * (x / 1000) <= x < 1000 * (x / 1000) + 1000
  {
  }

  lemma HalfOf(m: nat)
    ensures var h := m / 1000 / 2; 2000 * h <= m < 2000 * h + 2000
  {
  }

  /** How much may be used between two samples: half the register's range, less what the
      millijoules of the counter and of the threshold hide. */
  function Reach(m: nat): int
  {
    var h := m / 1000 / 2;
    if 1000 * h <= m - 1000 * (h + 1) then 1000 * h else m - 1000 * (h + 1)
  }

  lemma ReachIsHalf(m: nat)
    ensures m - 2000 <= 2 * Reach(m) <= m - 1000
  {
    HalfOf(m);
  }

  /** u and u' are the register before and after; g is the growth. */
  lemma FlagDecides(m: nat, u: nat, g: nat, u': nat)
    requires u < m && g <= Reach(m) && u' == if u + g < m then u + g else u + g - m
    ensures var h := m / 1000 / 2; if u + g < m then (u / 1000 > h ==> u' / 1000 > h) else u / 1000 > h > u' / 1000
  {
    HalfOf(m);
    Thousandths(u);
    Thousandths(u');
  }

  lemma SampleAccountsUj(d: Domain, m: nat, t: nat, t': nat)
    requires AccountsUj(d, m, t) && t <= t' <= t + Reach(m)
    ensures AccountsUj(Counted(d, t' % m), m, t')
  {
    ReachIsHalf(m);
    NextLap(m, t, t');
    Lap(t, m);
    FlagDecides(m, t % m, t' - t, t' % m);
    assert (t / m + 1) * (m / 1000) == t / m * (m / 1000) + m / 1000;
  }

  /** And no more: the account survives a use of g from every state if and only if g is in reach. */
  lemma ReachIsExact(m: nat, g: nat)
    requires m >= 1000
    ensures (forall d, t: nat | AccountsUj(d, m, t) :: AccountsUj(Counted(d, (t + g) % m), m, t + g)) <==> g <= Reach(m)
  {
    if g <= Reach(m) {
      forall d, t: nat | AccountsUj(d, m, t) ensures AccountsUj(Counted(d, (t + g) % m), m, t + g)
      {
        SampleAccountsUj(d, m, t, t + g);
      }
    } else {
      var t := BeyondReach(m, g);
      var d := Domain(0, m / 1000, m / 1000 / 2, t / 1000 > m / 1000 / 2, 0, t / 1000);
      ModUnique(t, m, 0, t);
      assert AccountsUj(d, m, t);
      MissedUj(d, m, t, g);
    }
  }

  /** A register that wraps before the flag is set, or comes round to the upper half. */
  lemma BeyondReach(m: nat, g: nat) returns (t: nat)
    requires m >= 1000 && g > Reach(m)
    ensures t < m <= t + g && (t / 1000 <= m / 1000 / 2 || (t + g < 2 * m && (t + g - m) / 1000 >= m / 1000 / 2))
  {
    HalfOf(m);
    var h := m / 1000 / 2;
    if g >= m {
      t := 0;
    } else if g > m - 1000 * (h + 1) {
      t := m - g;
      Thousandths(t);
    } else {
      t := m - 1;
      Thousandths(g - 1);
    }
  }

  lemma MissedUj(d: Domain, m: nat, t: nat, g: nat)
    requires AccountsUj(d, m, t) && d.cumulative == 0 && t < m <= t + g && t % m == t
    requires t / 1000 <= m / 1000 / 2 || (t + g < 2 * m && (t + g - m) / 1000 >= m / 1000 / 2)
    ensures !AccountsUj(Counted(d, (t + g) % m), m, t + g)
  {
    Lap(t + g, m);
    if t + g < 2 * m { ModUnique(t + g, m, 1, t + g - m); }
    var q := (t + g) / m;
    AtLeastOneLap(t + g, m);
    MulMono(m / 1000, 1, q);
  }

  /** Truths are in microjoules here; the range, where it is read, is m. */
  predicate SlowSampleUj(a: Attempt, m: nat, last: Option<nat>)
    requires m > 0
  {
    (a.rangeUj.Some? ==> a.rangeUj.value == m) &&
    (a.reading.Some? ==>
       a.reading.value == a.truth % m &&
       match last
       case None => a.truth < m
       case Some(t) => t <= a.truth <= t + Reach(m))
  }

  ghost predicate TracksUj(d: Domain, m: nat, known: bool, last: Option<nat>)
  {
    match last
    case Some(t) => known && AccountsUj(d, m, t)
    case None => Total(d) == 0 && !d.halfWay && d.range == (if known then m / 1000 else 0) && d.threshold == d.range / 2
  }

  lemma AttemptTracksUj(d: Domain, m: nat, known: bool, last: Option<nat>, a: Attempt)
    requires m >= 1000 && TracksUj(d, m, known, last) && SlowSampleUj(a, m, last) &&
             (a.reading.Some? ==> known || a.rangeUj.Some?)
    ensures TracksUj(Sample(d, a.rangeUj, a.reading), m, known || a.rangeUj.Some?,
                     if a.reading.Some? then Some(a.truth) else last)
  {
    if a.reading.Some? {
      if last.None? { ModUnique(a.truth, m, 0, a.truth); } else { SampleAccountsUj(d, m, last.value, a.truth); }
    }
  }

  /** The law for a register of any range: every successful sample is accounted for, whichever
      reads fail in between. */
  lemma {:induction false} RunAccountsUj(kind: nat, attempts: seq<Attempt>, m: nat, n: nat)
    requires m >= 1000 && n <= |attempts| &&
             forall k | 0 <= k < |attempts| :: SlowSampleUj(attempts[k], m, LastTruth(attempts, k))
    requires forall k | 0 <= k < |attempts| && attempts[k].reading.Some? :: Known(attempts, k + 1)
    ensures TracksUj(After(NewDomain(kind), attempts, n), m, Known(attempts, n), LastTruth(attempts, n))
  {
    if n > 0 {
      RunAccountsUj(kind, attempts, m, n - 1);
      assert attempts[n - 1].reading.Some? ==> Known(attempts, n - 1 + 1);
      AttemptTracksUj(After(NewDomain(kind), attempts, n - 1), m, Known(attempts, n - 1), LastTruth(attempts, n - 1),
                      attempts[n - 1]);
    }
  }

  /** The meter's total is the whole millijoules used, less what each lap and the register cut
      off; nothing is lost when the range is whole millijoules. */
  lemma TotalLoss(d: Domain, m: nat, t: nat)
    requires AccountsUj(d, m, t)
    ensures Total(d) + (t / m * (m % 1000) + t % m % 1000) / 1000 == t / 1000
    ensures m % 1000 == 0 ==> Total(d) == t / 1000
  {
    LossFrom(t, m, t / m, t % m, m / 1000, m % 1000, t % m / 1000, t % m % 1000);
  }

  lemma LossFrom(t: nat, m: nat, q: nat, u: nat, a: nat, b: nat, c: nat, e: nat)
    requires t == m * q + u && m == 1000 * a + b && u == 1000 * c + e && e < 1000
    ensures q * a + c + (q * b + e) / 1000 == t / 1000 && (b == 0 ==> (q * b + e) / 1000 == 0)
  {
    assert m * q == 1000 * (q * a) + q * b;
    var k := q * b + e;
    assert t == 1000 * (q * a + c) + k;
    Lap(k, 1000);
    ModUnique(t, 1000, q * a + c + k / 1000, k % 1000);
  }
}
