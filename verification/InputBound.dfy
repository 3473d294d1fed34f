/** LZMA_REQUIRED_INPUT_MAX: twenty bytes always hold a symbol and its closing NORMALIZE.
    The measure is the interval width counted in units of 256^-20: NORMALIZE leaves it
    alone, a modelled bit keeps at least a 67th of it, a direct bit almost half. */
module InputBound {
  import opened Words
  import opened RangeCoder
  import opened Symbols
  import opened SymbolRun

  const REQUIRED_INPUT_MAX := 20

  /** The interval width of a coder that has read n of its twenty bytes. */
  function Width(c: Coder, n: nat): nat
    requires n <= 20
  {
    c.range * Pow2(8 * (20 - n))
  }

  /** Width needed before k modelled bits so that t is left after them. */
  function BeforeBits(k: nat, t: nat): nat
  {
    if k == 0 then t else 67 * BeforeBits(k - 1, t)
  }

  /** Width needed before k direct bits; 1024 units are left after them. */
  function BeforeRaw(k: nat, unit: nat): nat { Pow2(k) * ((1024 + k) * unit) }

  /** Width that must be left at the end of a symbol, after the direct bits (in 1024ths)
      and before them. */
  datatype Budget = Budget(end: nat, unit: nat, direct: nat)

  ghost predicate BudgetOk(g: Budget)
  {
    TOP <= g.end && 1024 * g.unit == 67 * 67 * 67 * 67 * g.end && 128 * 1024 * g.unit <= g.direct &&
    forall k: nat :: k <= 26 ==> BeforeRaw(k, g.unit) <= g.direct
  }

  /** Width needed at a phase for the rest of its symbol, on its longest path. */
  function Need(g: Budget, ph: Phase): nat
  {
    match ph
    case AskMatch => BeforeBits(18, g.direct)
    case AskRep => BeforeBits(17, g.direct)
    case LitPlain(s) => BeforeBits(Doublings(s), g.end)
    case LitMatched(s, _) => BeforeBits(Doublings(s), g.end)
    case AskG0 => BeforeBits(14, g.end)
    case AskLong => BeforeBits(13, g.end)
    case AskG1 => BeforeBits(13, g.end)
    case AskG2 => BeforeBits(12, g.end)
    case LenChoice(src) => NeedLen(g, src, 10)
    case LenChoice2(src) => NeedLen(g, src, 9)
    case LenTree(src, band, i) => NeedLen(g, src, Doublings(BandScale(band) * i))
    case Slot(_, i) => BeforeBits(Doublings(4 * i), g.direct)
    case SpecDist(_, _, _, _, left) => BeforeBits(left, g.end)
    case Direct(_, _, left) => BeforeRaw(left, g.unit)
    case AlignBits(_, _, _, m) => BeforeBits(Doublings(16 * m), g.end)
    case Done(_) => g.end
  }

  function NeedLen(g: Budget, src: Source, k: nat): nat
  {
    if src.NewDist? then BeforeBits(k + 6, g.direct) else BeforeBits(k, g.end)
  }

  lemma {:induction false} BeforeBitsMono(k: nat, t: nat, k': nat, t': nat)
    requires k <= k' && t <= t'
    ensures BeforeBits(k, t) <= BeforeBits(k', t')
    decreases k'
  {
    if k' == 0 {
    } else if k == 0 {
      BeforeBitsMono(0, t, k' - 1, t');
    } else {
      BeforeBitsMono(k - 1, t, k' - 1, t');
    }
  }

  lemma FourBits(g: Budget)
    requires BudgetOk(g)
    ensures BeforeBits(4, g.end) == 1024 * g.unit == BeforeRaw(0, g.unit)
    ensures g.end <= g.direct && BeforeBits(5, g.end) <= g.direct
  {
    var t := g.end;
    assert BeforeBits(2, t) == 67 * BeforeBits(1, t) == 67 * 67 * t;
    assert BeforeBits(4, t) == 67 * BeforeBits(3, t) == 67 * 67 * BeforeBits(2, t);
    assert BeforeBits(5, t) == 67 * BeforeBits(4, t);
    assert Pow2(0) == 1;
  }

  // ---- One answer never outspends its phase ----

  lemma NeedAfterBit(g: Budget, c: Ctx, ph: Phase, b: bool)
    requires BudgetOk(g) && PhaseOk(ph) && !ph.Done? && !ph.Direct?
    ensures 67 * Need(g, Next(c, ph, b)) <= Need(g, ph)
  {
    FourBits(g);
    match ph
    case AskMatch => BeforeBitsMono(8, g.end, 17, g.direct);
    case AskRep => BeforeBitsMono(14, g.end, 16, g.direct);
    case AskLong => BeforeBitsMono(0, g.end, 12, g.end); BeforeBitsMono(10, g.end, 12, g.end);
    case AskG1 => BeforeBitsMono(10, g.end, 12, g.end);
    case AskG2 => BeforeBitsMono(10, g.end, 11, g.end);
    case LenChoice(src) => NeedLenMono(g, src, 3, 9);
    case LenChoice2(src) => NeedLenMono(g, src, 3, 8);
    case LenTree(_, _, _) => NeedAfterLen(g, c, ph, b);
    case Slot(len, i) => NeedAfterSlot(g, c, ph, b);
    case AskG0 =>
    case _ => NeedAfterTree(g, c, ph, b);
  }

  lemma OneBit(k: nat, t: nat)
    requires k > 0
    ensures BeforeBits(k, t) == 67 * BeforeBits(k - 1, t)
  {
  }

  lemma NeedAfterTree(g: Budget, c: Ctx, ph: Phase, b: bool)
    requires BudgetOk(g) && PhaseOk(ph) && (ph.LitPlain? || ph.LitMatched? || ph.SpecDist? || ph.AlignBits?)
    ensures 67 * Need(g, Next(c, ph, b)) <= Need(g, ph)
  {
    OneBit(Rank(ph), g.end);
  }

  lemma NeedLenMono(g: Budget, src: Source, k: nat, k': nat)
    requires k <= k'
    ensures NeedLen(g, src, k) <= NeedLen(g, src, k')
  {
    BeforeBitsMono(k + 6, g.direct, k' + 6, g.direct);
    BeforeBitsMono(k, g.end, k', g.end);
  }

  lemma NeedAfterLen(g: Budget, c: Ctx, ph: Phase, b: bool)
    requires BudgetOk(g) && PhaseOk(ph) && ph.LenTree?
    ensures 67 * Need(g, Next(c, ph, b)) <= Need(g, ph)
  {
    var k := Doublings(BandScale(ph.band) * ph.i);
    assert 67 * NeedLen(g, ph.src, k - 1) == NeedLen(g, ph.src, k);
  }

  lemma NeedAfterSlot(g: Budget, c: Ctx, ph: Phase, b: bool)
    requires BudgetOk(g) && PhaseOk(ph) && ph.Slot?
    ensures 67 * Need(g, Next(c, ph, b)) <= Need(g, ph)
  {
    FourBits(g);
    var i' := 2 * ph.i + B(b);
    OneBit(Doublings(4 * ph.i), g.direct);
    if i' >= 64 {
      assert Need(g, ph) == 67 * g.direct;
      var slot := i' - 64;
      if 4 <= slot < 14 { BeforeBitsMono(slot / 2 - 1, g.end, 5, g.end); }
    }
  }

  lemma NeedAfterRaw(g: Budget, c: Ctx, ph: Phase, b: bool)
    requires BudgetOk(g) && PhaseOk(ph) && ph.Direct?
    ensures Need(g, Next(c, ph, b)) * (2 * TOP) <= Need(g, ph) * (TOP - 1)
  {
    FourBits(g);
    RawStep(ph.left, g.unit);
  }

  lemma RawStep(k: nat, u: nat)
    requires 0 < k <= 26
    ensures BeforeRaw(k - 1, u) * (2 * TOP) <= BeforeRaw(k, u) * (TOP - 1)
  {
    var p := Pow2(k - 1);
    assert (1023 + k) * TOP <= (1024 + k) * (TOP - 1);
    MulMono(2 * p * u, (1023 + k) * TOP, (1024 + k) * (TOP - 1));
    assert BeforeRaw(k - 1, u) * (2 * TOP) == 2 * p * u * ((1023 + k) * TOP);
    assert BeforeRaw(k, u) * (TOP - 1) == 2 * p * u * ((1024 + k) * (TOP - 1));
  }

  lemma WidthAfterRaw(g: Budget, r: nat, r': nat, n: nat, need: nat, need': nat)
    requires n <= 20 && TOP <= r <= 2 * r' + 1
    requires need <= r * Pow2(8 * (20 - n)) && need' * (2 * TOP) <= need * (TOP - 1)
    ensures need' <= r' * Pow2(8 * (20 - n))
  {
    var u := Pow2(8 * (20 - n));
    assert r * (TOP - 1) <= r' * (2 * TOP);
    MulMono(u, r * (TOP - 1), r' * (2 * TOP));
    assert r * u * (TOP - 1) <= r' * u * (2 * TOP);
  }

  lemma WidthAfterBit(r: nat, r': nat, u: nat, need: nat, need': nat)
    requires TOP <= r && r / BIT_TOTAL * PROB_MIN <= r'
    requires need <= r * u && 67 * need' <= need
    ensures need' <= r' * u
  {
    MulMono(u, r, 67 * r');
    assert 67 * need' <= 67 * (r' * u);
  }

  lemma WidthAfter(g: Budget, c: Ctx, m: Micro, n: nat, adapt: bool)
    requires BudgetOk(g) && MicroOk(c, m) && !m.phase.Done? && TOP <= m.coder.range && n <= 20
    requires Need(g, m.phase) <= Width(m.coder, n)
    ensures Need(g, Answer(c, m, adapt).phase) <= Width(Answer(c, m, adapt).coder, n)
  {
    var a := Answer(c, m, adapt);
    if m.phase.Direct? {
      RawKeeps(m.coder);
      NeedAfterRaw(g, c, m.phase, RawBit(m.coder));
      WidthAfterRaw(g, m.coder.range, a.coder.range, n, Need(g, m.phase), Need(g, a.phase));
    } else {
      AskInTable(c, m.phase, |m.probs|);
      var p := m.probs[Ask(c, m.phase).k];
      BitKeeps(m.coder, p);
      NeedAfterBit(g, c, m.phase, BitOf(m.coder, p));
      WidthAfterBit(m.coder.range, a.coder.range, Pow2(8 * (20 - n)), Need(g, m.phase), Need(g, a.phase));
    }
  }

  /** NORMALIZE reads a byte only while there is one to read, and keeps the width. */
  lemma NormalizeKeepsWidth(k: Coder, inp: seq<byte>, n: nat)
    requires n <= 20 && n <= k.pos && k.pos - n + 20 <= |inp| && TOP <= Width(k, n)
    ensures Normalize(k, inp).Some?
    ensures var k' := Normalize(k, inp).value;
            n + (k'.pos - k.pos) <= 20 && Width(k', n + (k'.pos - k.pos)) == Width(k, n)
  {
    if k.range < TOP {
      assert n < 20 by { assert Pow2(0) == 1; }
      assert Pow2(8) == 256;
      Pow2Add(8, 8 * (19 - n));
      var u := Pow2(8 * (19 - n));
      assert Pow2(8 * (20 - n)) == 256 * u;
      assert k.range * 256 * u == k.range * (256 * u);
    }
  }

  /** With enough width left, the rest of the symbol ends within the twenty bytes. */
  lemma {:induction false} EndsWithin(g: Budget, c: Ctx, m: Micro, inp: seq<byte>, n: nat, adapt: bool)
    requires BudgetOk(g) && MicroOk(c, m) && n <= 20 && n <= m.coder.pos && m.coder.pos - n + 20 <= |inp|
    requires Need(g, m.phase) <= Width(m.coder, n)
    ensures RunSymbol(c, m, inp, adapt).Some? && RunSymbol(c, m, inp, adapt).value.coder.pos <= m.coder.pos - n + 20
    decreases Rank(m.phase)
  {
    NeedAtLeastTop(g, m.phase);
    NormalizeKeepsWidth(m.coder, inp, n);
    var k := Normalize(m.coder, inp).value;
    var n' := n + (k.pos - m.coder.pos);
    if !m.phase.Done? {
      WidthAfter(g, c, m.(coder := k), n', adapt);
      EndsWithin(g, c, Answer(c, m.(coder := k), adapt), inp, n', adapt);
    }
  }

  lemma NeedAtLeastTop(g: Budget, ph: Phase)
    requires BudgetOk(g) && PhaseOk(ph)
    ensures TOP <= Need(g, ph)
  {
    FourBits(g);
    if ph.Direct? {
      MulMono((1024 + ph.left) * g.unit, 1, Pow2(ph.left));
    } else {
      BitsAtLeast(g);
    }
  }

  lemma BitsAtLeast(g: Budget)
    requires BudgetOk(g)
    ensures forall k: nat :: TOP <= BeforeBits(k, g.end) && TOP <= BeforeBits(k, g.direct)
  {
    FourBits(g);
    forall k: nat
      ensures TOP <= BeforeBits(k, g.end) && TOP <= BeforeBits(k, g.direct)
    {
      BeforeBitsMono(0, g.end, k, g.end);
      BeforeBitsMono(0, g.direct, k, g.direct);
    }
  }

  // ---- The numbers ----

  lemma {:induction false} BeforeBitsAdd(a: nat, b: nat, t: nat)
    ensures BeforeBits(a + b, t) == BeforeBits(a, BeforeBits(b, t))
  {
    if a > 0 { BeforeBitsAdd(a - 1, b, t); }
  }

  lemma SixBits(t: nat)
    ensures BeforeBits(6, t) == 90458382169 * t
  {
    assert BeforeBits(2, t) == 67 * BeforeBits(1, t) == 4489 * t;
    assert BeforeBits(4, t) == 67 * BeforeBits(3, t) == 4489 * BeforeBits(2, t);
    assert BeforeBits(6, t) == 67 * BeforeBits(5, t) == 4489 * BeforeBits(4, t);
  }

  lemma EighteenBits(t: nat)
    ensures BeforeBits(18, t) == 90458382169 * (90458382169 * (90458382169 * t))
  {
    BeforeBitsAdd(6, 6, t);
    BeforeBitsAdd(6, 12, t);
    SixBits(t);
    SixBits(BeforeBits(6, t));
    SixBits(BeforeBits(12, t));
  }

  lemma PowerTen()
    ensures Pow2(10) == 1024
  {
  }

  lemma SixteenFold(n: nat)
    requires Pow2(n) == 1024
    ensures Pow2(16 * n) == 0x1_00000000_00000000_00000000_00000000_00000000
  {
    Pow2Add(n, n);
    Pow2Add(2 * n, 2 * n);
    Pow2Add(4 * n, 4 * n);
    Pow2Add(8 * n, 8 * n);
  }

  lemma RawMono(k: nat, k': nat, unit: nat)
    requires k <= k'
    ensures BeforeRaw(k, unit) <= BeforeRaw(k', unit)
  {
    Pow2Below(k, k');
    MulMono((1024 + k) * unit, Pow2(k), Pow2(k'));
    MulMono(unit, 1024 + k, 1024 + k');
    MulMono(Pow2(k'), (1024 + k) * unit, (1024 + k') * unit);
  }

  /** The whole budget, 22 modelled and 26 direct bits, is below twenty bytes. */
  lemma BudgetFits() returns (g: Budget)
    ensures BudgetOk(g) && Need(g, AskMatch) <= TOP * 0x1_00000000_00000000_00000000_00000000_00000000
  {
    var unit := 67 * 67 * 67 * 67 * 0x4000;
    g := Budget(TOP, unit, BeforeRaw(26, unit));
    Pow2Below26(26);
    MulMono((1024 + 26) * unit, Pow2(26), 0x400_0000);
    EighteenBits(g.direct);
    forall k: nat | k <= 26 ensures BeforeRaw(k, g.unit) <= g.direct {
      RawMono(k, 26, unit);
    }
    RawMono(7, 26, unit);
    SevenBits(unit);
  }

  lemma SevenBits(unit: nat)
    ensures 128 * 1024 * unit <= BeforeRaw(7, unit)
  {
    assert Pow2(7) == 128;
  }

  /** Twenty bytes always suffice for a symbol started with a normalized coder. */
  lemma TwentyBytesSuffice(c: Ctx, probs: seq<nat>, k: Coder, inp: seq<byte>, adapt: bool)
    requires MicroOk(c, Micro(AskMatch, probs, k)) && TOP <= k.range && k.pos + REQUIRED_INPUT_MAX <= |inp|
    ensures var r := RunSymbol(c, Micro(AskMatch, probs, k), inp, adapt);
            r.Some? && r.value.coder.pos <= k.pos + REQUIRED_INPUT_MAX
  {
    var g := BudgetFits();
    PowerTen();
    SixteenFold(10);
    MulMono(Pow2(160), TOP, k.range);
    EndsWithin(g, c, Micro(AskMatch, probs, k), inp, 0, adapt);
  }
}
