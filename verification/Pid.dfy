/** The proportional, integral and derivative controller, in exact reals. */
module Pid {
  import opened Words

  datatype Gains = Gains(kp: real, ki: real, kd: real)

  /** lastTime 0 means that nothing was measured since the last reset. */
  datatype Memory = Memory(lastTime: int, errSum: real, lastErr: real)

  const FRESH := Memory(0, 0.0, 0.0)

  /** The integral term that makes the first output the initial value. */
  function FirstSum(g: Gains, error: int, initial: int): real
  {
    if g.ki != 0.0 then (initial as real - g.kp * error as real) / g.ki else 0.0
  }

  function ErrSum(g: Gains, m: Memory, error: int, initial: int, now: int): real
  {
    if m.lastTime == 0 then FirstSum(g, error, initial) else m.errSum + (error * (now - m.lastTime)) as real
  }

  function Slope(m: Memory, error: int, now: int): real
  {
    if m.lastTime == 0 || now == m.lastTime then 0.0 else (error as real - m.lastErr) / (now - m.lastTime) as real
  }

  function Weighted(g: Gains, error: real, sum: real, slope: real): real
  {
    g.kp * error + g.ki * sum + g.kd * slope
  }

  function Output(g: Gains, m: Memory, error: int, initial: int, now: int): real
  {
    Weighted(g, error as real, ErrSum(g, m, error, initial, now), Slope(m, error, now))
  }

  function Next(g: Gains, m: Memory, error: int, initial: int, now: int): Memory
  {
    Memory(now, ErrSum(g, m, error, initial, now), error as real)
  }

  /** The conversion from double to int. */
  function Truncate(r: real): int { if r >= 0.0 then r.Floor else -(-r).Floor }

  class Controller {
    var kp: real
    var ki: real
    var kd: real
    var lastTime: int
    var errSum: real
    var lastErr: real
    var targetTemp: int

    constructor ()
      ensures Gain() == Gains(0.0005, 0.0001, 0.0001) && State() == FRESH && targetTemp == 0
    {
      kp, ki, kd := 0.0005, 0.0001, 0.0001;
      lastTime, errSum, lastErr, targetTemp := 0, 0.0, 0.0, 0;
    }

    ghost function Gain(): Gains reads this { Gains(kp, ki, kd) }

    ghost function State(): Memory reads this { Memory(lastTime, errSum, lastErr) }

    method SetTargetTemp(temp: int)
      modifies this`targetTemp
      ensures targetTemp == temp
    {
      targetTemp := temp;
    }

    method Reset()
      modifies this`lastTime, this`errSum, this`lastErr
      ensures State() == FRESH
    {
      errSum, lastErr, lastTime := 0.0, 0.0, 0;
    }

    method PidOutput(temperature: int, initial: int, now: int) returns (r: int)
      modifies this`lastTime, this`errSum, this`lastErr
      ensures var e := Int32(temperature - targetTemp);
              r == Truncate(Output(Gain(), old(State()), e, initial, now)) &&
              State() == Next(Gain(), old(State()), e, initial, now)
    {
      var error := Int32(temperature - targetTemp);
      ghost var m := State();
      if lastTime == 0 {
        lastTime := now;
        errSum := InitialSum(error, initial);
      }
      var timeChange := now - lastTime;
      errSum := errSum + (error * timeChange) as real;
      var dErr := Derivative(error, timeChange);
      assert timeChange == 0 ==> error * timeChange == 0;
      assert errSum == ErrSum(Gain(), m, error, initial, now) && dErr == Slope(m, error, now);
      r := Truncate(Weighted(Gains(kp, ki, kd), error as real, errSum, dErr));
      lastErr := error as real;
      lastTime := now;
    }

    method InitialSum(error: int, initial: int) returns (sum: real)
      ensures sum == FirstSum(Gain(), error, initial)
    {
      if ki != 0.0 {
        sum := (initial as real - kp * error as real) / ki;
      } else {
        sum := 0.0;
      }
    }

    method Derivative(error: int, timeChange: int) returns (d: real)
      ensures d == if timeChange == 0 then 0.0 else (error as real - lastErr) / timeChange as real
    {
      if timeChange != 0 {
        d := (error as real - lastErr) / timeChange as real;
      } else {
        d := 0.0;
      }
    }
  }

  // ---- Whole runs ----

  /** One call: the error it sees, its clock, and the initial value it is given. */
  datatype Call = Call(error: int, now: int, initial: int)

  /** memories[k] is the controller's memory before call k of a run that starts after a reset. */
  ghost predicate IsRun(g: Gains, calls: seq<Call>, memories: seq<Memory>)
  {
    |memories| == |calls| + 1 && memories[0] == FRESH && (forall k | 0 <= k < |calls| :: calls[k].now != 0) &&
    forall k | 0 <= k < |calls| ::
      memories[k + 1] == Next(g, memories[k], calls[k].error, calls[k].initial, calls[k].now)
  }

  /** The sum of error times elapsed time over the calls after the first, up to n. */
  function Integral(calls: seq<Call>, n: nat): int
    requires n < |calls|
  {
    if n == 0 then 0 else Integral(calls, n - 1) + calls[n].error * (calls[n].now - calls[n - 1].now)
  }

  function LastSlope(calls: seq<Call>, n: nat): real
    requires n < |calls|
  {
    if n == 0 || calls[n].now == calls[n - 1].now then 0.0
    else (calls[n].error - calls[n - 1].error) as real / (calls[n].now - calls[n - 1].now) as real
  }

  lemma {:induction false} SumIsIntegral(g: Gains, calls: seq<Call>, memories: seq<Memory>, n: nat)
    requires IsRun(g, calls, memories) && n < |calls|
    ensures memories[n + 1] ==
            Memory(calls[n].now, FirstSum(g, calls[0].error, calls[0].initial) + Integral(calls, n) as real,
                   calls[n].error as real)
  {
    if n > 0 {
      SumIsIntegral(g, calls, memories, n - 1);
    }
    assert memories[n + 1] == Next(g, memories[n], calls[n].error, calls[n].initial, calls[n].now);
  }

  lemma Undivide(a: real, b: real)
    requires b != 0.0
    ensures b * (a / b) == a
  {
  }

  /** What the first sum contributes to every output. */
  lemma FirstShare(g: Gains, error: int, initial: int)
    requires g.ki != 0.0
    ensures g.ki * FirstSum(g, error, initial) == initial as real - g.kp * error as real
  {
    Undivide(initial as real - g.kp * error as real, g.ki);
  }

  /** The first output after a reset is the initial value, whatever the error: without an
      integral gain only when the proportional term happens to be that value. */
  lemma FirstOutput(g: Gains, error: int, initial: int, now: int)
    ensures Output(g, FRESH, error, initial, now) == initial as real <==>
              g.ki != 0.0 || g.kp * error as real == initial as real
    ensures g.ki != 0.0 ==> Truncate(Output(g, FRESH, error, initial, now)) == initial
  {
    if g.ki != 0.0 { FirstShare(g, error, initial); }
  }

  /** The initial value, plus proportional, integral and derivative terms measured from the
      first call. */
  function FromInitial(g: Gains, initial: int, rise: int, integral: int, slope: real): real
  {
    initial as real + g.kp * rise as real + g.ki * integral as real + g.kd * slope
  }

  lemma TermsAt(g: Gains, calls: seq<Call>, memories: seq<Memory>, n: nat)
    requires IsRun(g, calls, memories) && n < |calls|
    ensures var m, c := memories[n], calls[n];
            ErrSum(g, m, c.error, c.initial, c.now) ==
            FirstSum(g, calls[0].error, calls[0].initial) + Integral(calls, n) as real &&
            Slope(m, c.error, c.now) == LastSlope(calls, n)
  {
    SumIsIntegral(g, calls, memories, n);
    SumIsNext(g, memories[n], calls[n], memories[n + 1]);
    SlopeAt(g, calls, memories, n);
  }

  lemma SumIsNext(g: Gains, m: Memory, c: Call, m': Memory)
    requires m' == Next(g, m, c.error, c.initial, c.now)
    ensures ErrSum(g, m, c.error, c.initial, c.now) == m'.errSum
  {
  }

  lemma SlopeAt(g: Gains, calls: seq<Call>, memories: seq<Memory>, n: nat)
    requires IsRun(g, calls, memories) && n < |calls|
    ensures Slope(memories[n], calls[n].error, calls[n].now) == LastSlope(calls, n)
  {
    if n > 0 {
      SumIsIntegral(g, calls, memories, n - 1);
      SlopeIs(memories[n], calls[n - 1], calls[n]);
    }
  }

  lemma SlopeIs(m: Memory, b: Call, c: Call)
    requires m.lastTime == b.now != 0 && m.lastErr == b.error as real
    ensures Slope(m, c.error, c.now) ==
            if c.now == b.now then 0.0 else (c.error - b.error) as real / (c.now - b.now) as real
  {
  }

  /** The n-th output after a reset. */
  lemma NthOutput(g: Gains, calls: seq<Call>, memories: seq<Memory>, n: nat)
    requires IsRun(g, calls, memories) && g.ki != 0.0 && n < |calls|
    ensures Output(g, memories[n], calls[n].error, calls[n].initial, calls[n].now) ==
            FromInitial(g, calls[0].initial, calls[n].error - calls[0].error, Integral(calls, n), LastSlope(calls, n))
  {
    TermsAt(g, calls, memories, n);
    FromTerms(g, memories[n], calls[n], calls[0].error, calls[0].initial, Integral(calls, n), LastSlope(calls, n));
  }

  lemma FromTerms(g: Gains, m: Memory, c: Call, e0: int, initial: int, integral: int, slope: real)
    requires g.ki != 0.0 && ErrSum(g, m, c.error, c.initial, c.now) == FirstSum(g, e0, initial) + integral as real
    requires Slope(m, c.error, c.now) == slope
    ensures Output(g, m, c.error, c.initial, c.now) == FromInitial(g, initial, c.error - e0, integral, slope)
  {
    FromFirst(g, e0, initial, c.error, integral, slope);
  }

  lemma FromFirst(g: Gains, e0: int, initial: int, e: int, integral: int, slope: real)
    requires g.ki != 0.0
    ensures Weighted(g, e as real, FirstSum(g, e0, initial) + integral as real, slope) ==
            FromInitial(g, initial, e - e0, integral, slope)
  {
    FirstShare(g, e0, initial);
    Spread(g.ki, FirstSum(g, e0, initial), integral as real);
    Spread(g.kp, e as real, -(e0 as real));
  }

  lemma Spread(a: real, x: real, y: real)
    ensures a * (x + y) == a * x + a * y
  {
  }

  /** The conversion drops the fraction, towards zero from either side. */
  lemma TruncateDropsFraction(r: real)
    ensures r >= 0.0 ==> 0 <= Truncate(r) && Truncate(r) as real <= r < Truncate(r) as real + 1.0
    ensures r <= 0.0 ==> Truncate(r) <= 0 && Truncate(r) as real - 1.0 < r <= Truncate(r) as real
    ensures Truncate(-r) == -Truncate(r)
  {
  }

  /** So it keeps the order of its arguments. */
  lemma TruncateKeepsOrder(r: real, s: real)
    requires r <= s
    ensures Truncate(r) <= Truncate(s)
  {
  }

  lemma {:induction false} SteadyIntegral(calls: seq<Call>, error: int, n: nat)
    requires n < |calls| && forall k | 0 <= k < |calls| :: calls[k].error == error
    ensures Integral(calls, n) == error * (calls[n].now - calls[0].now)
  {
    if n > 0 { SteadyIntegral(calls, error, n - 1); }
  }

  /** Under a steady error the output moves away from its initial value at the integral gain times
      the error. */
  lemma SteadyError(g: Gains, calls: seq<Call>, memories: seq<Memory>, error: int, n: nat)
    requires IsRun(g, calls, memories) && g.ki != 0.0 && n < |calls|
    requires forall k | 0 <= k < |calls| :: calls[k].error == error
    ensures Output(g, memories[n], error, calls[n].initial, calls[n].now) ==
            calls[0].initial as real + g.ki * (error * (calls[n].now - calls[0].now)) as real
  {
    NthOutput(g, calls, memories, n);
    SteadyIntegral(calls, error, n);
    assert LastSlope(calls, n) == 0.0;
  }

  /** So with a positive integral gain it stays on the error's side of it. */
  lemma SteadySide(g: Gains, calls: seq<Call>, memories: seq<Memory>, error: int, n: nat)
    requires IsRun(g, calls, memories) && g.ki > 0.0 && n < |calls| && calls[n].now >= calls[0].now
    requires forall k | 0 <= k < |calls| :: calls[k].error == error
    ensures var out := Truncate(Output(g, memories[n], error, calls[n].initial, calls[n].now));
            (error >= 0 ==> out >= calls[0].initial) && (error <= 0 ==> out <= calls[0].initial)
  {
    SteadyError(g, calls, memories, error, n);
    SideOf(g.ki, error, calls[n].now - calls[0].now, calls[0].initial);
  }

  lemma SideOf(a: real, x: int, y: int, initial: int)
    requires a > 0.0 && y >= 0
    ensures var out := Truncate(initial as real + a * (x * y) as real);
            (x >= 0 ==> out >= initial) && (x <= 0 ==> out <= initial)
  {
    var out := initial as real + a * (x * y) as real;
    if x >= 0 {
      assert x * y >= 0;
      TruncateKeepsOrder(initial as real, out);
    }
    if x <= 0 {
      assert x * y <= 0;
      TruncateKeepsOrder(out, initial as real);
    }
  }
}
