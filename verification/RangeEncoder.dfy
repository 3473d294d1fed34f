/** A range encoder for the decoder: from the bits of a symbol back to the code register and the
    bytes that make the decoder find them. With it every list of symbols has its input. */
module RangeEncoder {
  import opened Words
  import opened RangeCoder
  import opened Symbols
  import opened SymbolRun
  import opened SymbolCode

  function WithRange(m: Micro, range: nat): Micro { m.(coder := Coder(range, 0, 0)) }

  /** The range after NORMALIZE. */
  function Widened(range: nat): nat { if range < TOP then range * 256 else range }

  /** One bit of the symbol, whatever the code. */
  function StepBit(c: Ctx, m: Micro, b: bool): (r: Micro)
    requires MicroOk(c, m) && !m.phase.Done? && TOP <= m.coder.range
    ensures MicroOk(c, r) && |r.probs| == |m.probs| && Rank(r.phase) < Rank(m.phase) && r.phase == Next(c, m.phase, b)
  {
    AskInTable(c, m.phase, |m.probs|);
    NextOk(c, m.phase, b);
    match Ask(c, m.phase)
    case Model(k) =>
      var p := m.probs[k];
      var bound := Bound(m.coder.range, p);
      ShareFits(m.coder.range, p);
      Micro(Next(c, m.phase, b), m.probs[k := Adapt(p, b)], Coder(if b then m.coder.range - bound else bound, 0, 0))
    case Raw => Micro(Next(c, m.phase, b), m.probs, Coder(m.coder.range / 2, 0, 0))
  }

  /** Both shares of a normalized range are ranges again. */
  lemma ShareFits(range: nat, p: nat)
    requires TOP <= range < WORD && ProbOk(p)
    ensures 0x1_0000 <= Bound(range, p) && Bound(range, p) + 0x1_0000 <= range
  {
    var q := range / BIT_TOTAL;
    MulMono(q, p, PROB_MAX);
    MulMono(q, PROB_MIN, p);
  }

  /** The symbol w spells out, whatever the code. */
  function Forward(c: Ctx, m: Micro, w: bits): (r: Micro)
    requires MicroOk(c, m) && Leads(c, m.phase, w).Some?
    ensures MicroOk(c, r) && |r.probs| == |m.probs| && r.phase == Done(Leads(c, m.phase, w).value) &&
            TOP <= r.coder.range
    decreases |w|
  {
    var n := WithRange(m, Widened(m.coder.range));
    if m.phase.Done? then n else Forward(c, StepBit(c, n, w[0]), w[1..])
  }

  /** The code before a bit from the code after it. */
  function UndoBit(c: Ctx, m: Micro, b: bool, code: nat): nat
    requires MicroOk(c, m) && !m.phase.Done?
  {
    if !b then code
    else
      AskInTable(c, m.phase, |m.probs|);
      match Ask(c, m.phase)
      case Model(k) => code + Bound(m.coder.range, m.probs[k])
      case Raw => code + m.coder.range / 2
  }

  datatype Coded = Coded(code: nat, bytes: seq<byte>)

  /** The code and the bytes before NORMALIZE from those after it. */
  function UndoNormalize(range: nat, x: Coded): Coded
  {
    if range < TOP then Coded(x.code / 256, [x.code % 256] + x.bytes) else x
  }

  /** What to feed the decoder so that it finds w and then has the code and the bytes of `end`. */
  function Backward(c: Ctx, m: Micro, w: bits, end: Coded): Coded
    requires MicroOk(c, m) && Leads(c, m.phase, w).Some?
    decreases |w|
  {
    var n := WithRange(m, Widened(m.coder.range));
    if m.phase.Done? then UndoNormalize(m.coder.range, end)
    else
      var x := Backward(c, StepBit(c, n, w[0]), w[1..], end);
      UndoNormalize(m.coder.range, Coded(UndoBit(c, n, w[0], x.code), x.bytes))
  }

  function At(m: Micro, code: nat, pos: nat): Micro { m.(coder := Coder(m.coder.range, code, pos)) }

  /** The decoder's bit is the encoder's. */
  lemma BitIsFound(c: Ctx, m: Micro, b: bool, code: nat, pos: nat)
    requires MicroOk(c, m) && !m.phase.Done? && TOP <= m.coder.range && code < StepBit(c, m, b).coder.range
    ensures UndoBit(c, m, b, code) < m.coder.range
    ensures var a := At(m, UndoBit(c, m, b, code), pos);
            MicroOk(c, a) && Answer(c, a, true) == At(StepBit(c, m, b), code, pos)
  {
    AskInTable(c, m.phase, |m.probs|);
    match Ask(c, m.phase)
    case Model(k) => ShareFits(m.coder.range, m.probs[k]);
    case Raw => RawBitIsFound(m.coder.range, b, code);
  }

  lemma RawBitIsFound(range: nat, b: bool, code: nat)
    requires TOP <= range < WORD && code < range / 2
    ensures var k := Coder(range, if b then code + range / 2 else code, 0);
            k.code < range && RawBit(k) == b && AfterRaw(k).code == code
  {
    assert range / 2 < 0x8000_0000;
    if !b { ModUnique(code - range / 2, 0x1_0000_0000, -1, code - range / 2 + 0x1_0000_0000); }
  }

  /** Undoing NORMALIZE gives a code below the range, and NORMALIZE does it again. */
  lemma NormalizeIsFound(range: nat, x: Coded)
    requires 0x1_0000 <= range < WORD && x.code < Widened(range)
    ensures var y := UndoNormalize(range, x); var d := |y.bytes| - |x.bytes|;
            y.code < range && 0 <= d <= 1 && y.bytes[d..] == x.bytes &&
            Normalize(Coder(range, y.code, 0), y.bytes) == Some(Coder(Widened(range), x.code, d))
  {
    if range < TOP {
      var q := x.code / 256;
      assert q * 256 < 0x1_0000_0000;
      ModUnique(q * 256, 0x1_0000_0000, 0, q * 256);
      assert ([x.code % 256] + x.bytes)[1..] == x.bytes;
    } else {
      assert x.bytes[0..] == x.bytes;
    }
  }

  /** Fed with x, the decoder goes from m to f and then has `end`. */
  ghost predicate Finds(c: Ctx, m: Micro, x: Coded, f: Micro, end: Coded)
    requires MicroOk(c, m)
  {
    x.code < m.coder.range && Left(x, end) &&
    RunSymbol(c, At(m, x.code, 0), x.bytes, true) == Some(At(f, end.code, |x.bytes| - |end.bytes|))
  }

  /** Decoding what was encoded: the bits of w are found, and what is left is `end`. */
  lemma {:induction false} RunsBack(c: Ctx, m: Micro, w: bits, end: Coded)
    requires MicroOk(c, m) && Leads(c, m.phase, w).Some? && end.code < Forward(c, m, w).coder.range
    ensures Finds(c, m, Backward(c, m, w, end), Forward(c, m, w), end)
    decreases |w|
  {
    if m.phase.Done? {
      FindsEnd(c, m, end);
    } else {
      var m1 := StepBit(c, WithRange(m, Widened(m.coder.range)), w[0]);
      RunsBack(c, m1, w[1..], end);
      FindsOneMore(c, m, w[0], m1, Backward(c, m1, w[1..], end), Forward(c, m1, w[1..]), end);
    }
  }

  lemma FindsEnd(c: Ctx, m: Micro, end: Coded)
    requires MicroOk(c, m) && m.phase.Done? && end.code < Widened(m.coder.range)
    ensures Finds(c, m, UndoNormalize(m.coder.range, end), WithRange(m, Widened(m.coder.range)), end)
  {
    NormalizeIsFound(m.coder.range, end);
  }

  lemma FindsOneMore(c: Ctx, m: Micro, b: bool, m1: Micro, x1: Coded, f: Micro, end: Coded)
    requires MicroOk(c, m) && !m.phase.Done? && m1 == StepBit(c, WithRange(m, Widened(m.coder.range)), b)
    requires Finds(c, m1, x1, f, end)
    ensures Finds(c, m, BackOne(c, m, b, x1), f, end)
  {
    var n := WithRange(m, Widened(m.coder.range));
    var inner := Coded(UndoBit(c, n, b, x1.code), x1.bytes);
    var x := UndoNormalize(m.coder.range, inner);
    BitIsFound(c, n, b, x1.code, |x.bytes| - |x1.bytes|);
    NormalizeIsFound(m.coder.range, inner);
    OneBitBack(c, m, n, m1, x, inner, x1, f, end);
  }

  /** The bytes of y are the last ones of x. */
  predicate Left(x: Coded, y: Coded) { |y.bytes| <= |x.bytes| && x.bytes[|x.bytes| - |y.bytes|..] == y.bytes }

  lemma LeftTwice(x: Coded, y: Coded, z: Coded)
    requires Left(x, y) && Left(y, z)
    ensures Left(x, z)
  {
    var a, b := |x.bytes| - |y.bytes|, |y.bytes| - |z.bytes|;
    assert x.bytes[a..][b..] == x.bytes[a + b..];
  }

  /** One bit back. */
  function BackOne(c: Ctx, m: Micro, b: bool, x1: Coded): Coded
    requires MicroOk(c, m) && !m.phase.Done?
  {
    var n := WithRange(m, Widened(m.coder.range));
    UndoNormalize(m.coder.range, Coded(UndoBit(c, n, b, x1.code), x1.bytes))
  }

  /** One bit of a run, and the rest of it. */
  lemma OneBitBack(c: Ctx, m: Micro, n: Micro, m1: Micro, x: Coded, inner: Coded, x1: Coded, f: Micro, end: Coded)
    requires MicroOk(c, m) && MicroOk(c, m1) && !m.phase.Done? && n == WithRange(m, Widened(m.coder.range)) &&
             MicroOk(c, n)
    requires x.code < m.coder.range && inner.code < WORD && Left(x, x1) && Finds(c, m1, x1, f, end)
    requires var d := |x.bytes| - |x1.bytes|;
             Normalize(Coder(m.coder.range, x.code, 0), x.bytes) == Some(Coder(n.coder.range, inner.code, d)) &&
             TOP <= n.coder.range && Answer(c, At(n, inner.code, d), true) == At(m1, x1.code, d)
    ensures Finds(c, m, x, f, end)
  {
    LeftTwice(x, x1, end);
    var d := |x.bytes| - |x1.bytes|;
    OneBitOn(c, m, n, m1, x, inner.code, x1.code, d);
    RestIsFound(c, m1, x, x1, f, end);
  }

  lemma RestIsFound(c: Ctx, m1: Micro, x: Coded, x1: Coded, f: Micro, end: Coded)
    requires MicroOk(c, m1) && Left(x, x1) && Finds(c, m1, x1, f, end)
    ensures RunSymbol(c, At(m1, x1.code, |x.bytes| - |x1.bytes|), x.bytes, true) ==
            Some(At(f, end.code, |x.bytes| - |end.bytes|))
  {
    var d := |x.bytes| - |x1.bytes|;
    assert x.bytes == x.bytes[..d] + x1.bytes;
    RunShift(c, At(m1, x1.code, 0), x.bytes[..d], x1.bytes, true);
    MovesOn(RunSymbol(c, At(m1, x1.code, d), x.bytes, true), RunSymbol(c, At(m1, x1.code, 0), x1.bytes, true), f,
            end.code, d, |x1.bytes| - |end.bytes|);
  }

  lemma OneBitOn(c: Ctx, m: Micro, n: Micro, m1: Micro, x: Coded, inner: nat, code: nat, d: nat)
    requires MicroOk(c, m) && MicroOk(c, m1) && !m.phase.Done? && n == WithRange(m, Widened(m.coder.range)) &&
             MicroOk(c, n)
    requires x.code < m.coder.range && inner < WORD && code < WORD && TOP <= n.coder.range
    requires Normalize(Coder(m.coder.range, x.code, 0), x.bytes) == Some(Coder(n.coder.range, inner, d))
    requires Answer(c, At(n, inner, d), true) == At(m1, code, d)
    ensures RunSymbol(c, At(m, x.code, 0), x.bytes, true) == RunSymbol(c, At(m1, code, d), x.bytes, true)
  {
  }

  lemma MovesOn(r: Option<Micro>, r1: Option<Micro>, f: Micro, code: nat, d: nat, d1: nat)
    requires r == MovedMicro(r1, d) && r1 == Some(At(f, code, d1))
    ensures r == Some(At(f, code, d + d1))
  {
  }
}
