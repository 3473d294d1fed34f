/** One LZMA symbol as an automaton that asks for one bit at a time. `Ask` names the
    probability cell of the next bit (or a direct bit) and `Next` consumes the answer.
    Literals follow the match byte up to the first mismatch and then a plain tree, as
    the format describes them; the decoder's branch-free forms are proved against this. */
module Symbols {
  import opened Words
  import opened RangeCoder

  // Layout of the probability table, relative to `probs` (kStartOffset added).
  const SPEC_POS := 0
  const IS_REP0_LONG := 128
  const REP_LEN := 384
  const LEN := 896
  const IS_MATCH := 1408
  const ALIGN := 1664
  const IS_REP := 1680
  const IS_REP_G0 := 1692
  const IS_REP_G1 := 1704
  const IS_REP_G2 := 1716
  const POS_SLOT := 1728
  const LITERAL := 1984
  const LIT_SIZE := 0x300

  const LEN_CHOICE2 := 8
  const LEN_HIGH := 256
  const END_DIST := 0xFFFF_FFFF

  datatype Sym =
    | Lit(b: byte)
    | ShortRep
    | Rep(which: nat, len: nat)
    | Match(dist: nat, len: nat)
    | EndMark

  /** Whose length is being read: a new match, or one of the four repeat distances. */
  datatype Source = NewDist | OldDist(which: nat)

  datatype Phase =
    | AskMatch
    | LitPlain(symbol: nat)
    | LitMatched(symbol: nat, matchByte: nat)
    | AskRep
    | AskG0
    | AskLong
    | AskG1
    | AskG2
    | LenChoice(src: Source)
    | LenChoice2(src: Source)
    | LenTree(src: Source, band: nat, i: nat)
    | Slot(len: nat, i: nat)
    | SpecDist(len: nat, base: nat, i: nat, m: nat, left: nat)
    | Direct(len: nat, d: nat, left: nat)
    | AlignBits(len: nat, d: nat, i: nat, m: nat)
    | Done(sym: Sym)

  datatype Request = Model(k: nat) | Raw

  /** What a symbol's decoding depends on besides probabilities and input. */
  datatype Ctx = Ctx(state: nat, posState: nat, lit: nat, matchByte: nat)

  predicate CtxOk(c: Ctx, n: nat)
  {
    c.state < 12 && c.posState <= 240 && c.posState % 16 == 0 &&
    LITERAL <= c.lit && c.lit + LIT_SIZE <= n && c.matchByte < 256
  }

  function LenBase(src: Source): nat { if src.NewDist? then LEN else REP_LEN }
  function BandBase(c: Ctx, band: nat): nat
  {
    if band == 0 then c.posState else if band == 1 then c.posState + 8 else LEN_HIGH
  }
  function BandLimit(band: nat): nat { if band == 2 then 256 else 8 }
  function BandOffset(band: nat): nat { 8 * band }
  function SlotGroup(len: nat): nat { if len < 4 then len else 3 }
  function B(b: bool): nat { if b then 1 else 0 }

  predicate SrcOk(s: Source) { s.OldDist? ==> s.which < 4 }

  predicate SymOk(s: Sym)
  {
    match s
    case Lit(_) => true
    case ShortRep => true
    case Rep(w, len) => w < 4 && len < 272
    case Match(d, len) => d < END_DIST && len < 272
    case EndMark => true
  }

  predicate PhaseOk(ph: Phase)
  {
    match ph
    case LitPlain(s) => 1 <= s < 256
    case LitMatched(s, mb) => 1 <= s < 256 && mb < 256
    case LenChoice(src) => SrcOk(src)
    case LenChoice2(src) => SrcOk(src)
    case LenTree(src, band, i) => SrcOk(src) && band < 3 && 1 <= i < BandLimit(band)
    case Slot(len, i) => len < 272 && 1 <= i < 64
    case SpecDist(len, base, i, m, left) =>
      len < 272 && 4 <= base <= 96 && m <= i < 2 * m && left > 0 && m * Pow2(left) <= 32
    case Direct(len, d, left) => len < 272 && 0 < left <= 26 && (d + 1) * Pow2(left) <= 0x1000_0000
    case AlignBits(len, d, i, m) => len < 272 && d < 0x1000_0000 && (m == 1 || m == 2 || m == 4 || m == 8) &&
                                    m <= i < 2 * m
    case Done(s) => SymOk(s)
    case _ => true
  }

  /** How often x can be doubled before it reaches 256. */
  function Doublings(x: nat): nat
  {
    if x >= 256 then 0 else if x >= 128 then 1 else if x >= 64 then 2 else if x >= 32 then 3
    else if x >= 16 then 4 else if x >= 8 then 5 else if x >= 4 then 6 else if x >= 2 then 7 else 8
  }

  function BandScale(band: nat): nat { if band == 2 then 1 else 32 }

  function Rank(ph: Phase): nat
  {
    match ph
    case AskMatch => 60
    case LitPlain(s) => Doublings(s)
    case LitMatched(s, _) => Doublings(s)
    case AskRep => 59
    case AskG0 => 58
    case AskLong => 57
    case AskG1 => 57
    case AskG2 => 56
    case LenChoice(_) => 51
    case LenChoice2(_) => 50
    case LenTree(_, band, i) => 40 + Doublings(BandScale(band) * i)
    case Slot(_, i) => 31 + Doublings(4 * i)
    case SpecDist(_, _, _, _, left) => left
    case Direct(_, _, left) => 4 + left
    case AlignBits(_, _, _, m) => Doublings(16 * m)
    case Done(_) => 0
  }

  function Ask(c: Ctx, ph: Phase): Request
    requires !ph.Done?
  {
    match ph
    case AskMatch => Model(IS_MATCH + c.posState + c.state)
    case LitPlain(s) => Model(c.lit + s)
    case LitMatched(s, mb) => Model(c.lit + 0x100 * (1 + mb / 128) + s)
    case AskRep => Model(IS_REP + c.state)
    case AskG0 => Model(IS_REP_G0 + c.state)
    case AskLong => Model(IS_REP0_LONG + c.posState + c.state)
    case AskG1 => Model(IS_REP_G1 + c.state)
    case AskG2 => Model(IS_REP_G2 + c.state)
    case LenChoice(src) => Model(LenBase(src))
    case LenChoice2(src) => Model(LenBase(src) + LEN_CHOICE2)
    case LenTree(src, band, i) => Model(LenBase(src) + BandBase(c, band) + i)
    case Slot(len, i) => Model(POS_SLOT + 64 * SlotGroup(len) + i)
    case SpecDist(_, base, i, _, _) => Model(SPEC_POS + base + i)
    case Direct(_, _, _) => Raw
    case AlignBits(_, _, i, _) => Model(ALIGN + i)
  }

  function AfterLen(src: Source, len: nat): Phase
  {
    match src
    case NewDist => Slot(len, 1)
    case OldDist(w) => Done(Rep(w, len))
  }

  function AfterSlot(len: nat, slot: nat): Phase
  {
    if slot < 4 then Done(Match(slot, len))
    else if slot < 14 then SpecDist(len, (2 + slot % 2) * Pow2(slot / 2 - 1), 1, 1, slot / 2 - 1)
    else Direct(len, 2 + slot % 2, slot / 2 - 5)
  }

  function AfterAlign(len: nat, dist: nat): Phase
  {
    if dist == END_DIST then Done(EndMark) else Done(Match(dist, len))
  }

  function AfterLit(symbol: nat, more: Phase): Phase
  {
    if 256 <= symbol < 512 then Done(Lit(symbol - 256)) else more
  }

  function Next(c: Ctx, ph: Phase, b: bool): Phase
    requires PhaseOk(ph) && !ph.Done?
  {
    match ph
    case AskMatch => if b then AskRep else if c.state < 7 then LitPlain(1) else LitMatched(1, c.matchByte)
    case LitPlain(s) => AfterLit(2 * s + B(b), LitPlain(2 * s + B(b)))
    case LitMatched(s, mb) =>
      var s' := 2 * s + B(b);
      AfterLit(s', if B(b) == mb / 128 then LitMatched(s', 2 * mb % 256) else LitPlain(s'))
    case AskRep => if b then AskG0 else LenChoice(NewDist)
    case AskG0 => if b then AskG1 else AskLong
    case AskLong => if b then LenChoice(OldDist(0)) else Done(ShortRep)
    case AskG1 => if b then AskG2 else LenChoice(OldDist(1))
    case AskG2 => LenChoice(OldDist(if b then 3 else 2))
    case LenChoice(src) => if b then LenChoice2(src) else LenTree(src, 0, 1)
    case LenChoice2(src) => LenTree(src, if b then 2 else 1, 1)
    case LenTree(src, band, i) =>
      var i' := 2 * i + B(b);
      if i' >= BandLimit(band) then AfterLen(src, i' - BandLimit(band) + BandOffset(band)) else LenTree(src, band, i')
    case Slot(len, i) =>
      var i' := 2 * i + B(b);
      if i' >= 64 then AfterSlot(len, i' - 64) else Slot(len, i')
    case SpecDist(len, base, i, m, left) =>
      var i' := i + m + m * B(b);
      if left == 1 then Done(Match(base + i' - 2 * m, len)) else SpecDist(len, base, i', 2 * m, left - 1)
    case Direct(len, d, left) =>
      var d' := 2 * d + B(b);
      if left == 1 then AlignBits(len, d', 1, 1) else Direct(len, d', left - 1)
    case AlignBits(len, d, i, m) =>
      var i' := i + m + m * B(b);
      if m == 8 then AfterAlign(len, 16 * d + (i' - 16)) else AlignBits(len, d, i', 2 * m)
  }

  /** Every answer leads to a well-formed phase, nearer to the end of the symbol. */
  lemma NextOk(c: Ctx, ph: Phase, b: bool)
    requires PhaseOk(ph) && !ph.Done? && c.matchByte < 256
    ensures PhaseOk(Next(c, ph, b)) && Rank(Next(c, ph, b)) < Rank(ph)
  {
    match ph
    case LitPlain(_) => NextOkLit(c, ph, b);
    case LitMatched(_, _) => NextOkLit(c, ph, b);
    case LenTree(src, band, i) => NextOkLen(c, ph, b);
    case Slot(len, i) => NextOkSlot(c, ph, b);
    case SpecDist(len, base, i, m, left) => SpecStep(m, left);
    case Direct(len, d, left) => DirectStep(d, 2 * d + B(b), left);
    case _ =>
  }

  lemma NextOkLit(c: Ctx, ph: Phase, b: bool)
    requires PhaseOk(ph) && (ph.LitPlain? || ph.LitMatched?)
    ensures PhaseOk(Next(c, ph, b)) && Rank(Next(c, ph, b)) < Rank(ph)
  {
  }

  lemma NextOkLen(c: Ctx, ph: Phase, b: bool)
    requires PhaseOk(ph) && ph.LenTree?
    ensures PhaseOk(Next(c, ph, b)) && Rank(Next(c, ph, b)) < Rank(ph)
  {
    var i' := 2 * ph.i + B(b);
    if i' < BandLimit(ph.band) {
      DoublingFalls(BandScale(ph.band) * ph.i, BandScale(ph.band) * i');
    } else {
      AfterLenOk(ph.src, i' - BandLimit(ph.band) + BandOffset(ph.band));
    }
  }

  lemma DoublingFalls(x: nat, y: nat)
    requires 2 * x <= y && 0 < x < 256
    ensures Doublings(y) < Doublings(x)
  {
  }

  lemma AfterLenOk(src: Source, len: nat)
    requires SrcOk(src) && len < 272
    ensures PhaseOk(AfterLen(src, len)) && Rank(AfterLen(src, len)) < 40
  {
  }

  lemma NextOkSlot(c: Ctx, ph: Phase, b: bool)
    requires PhaseOk(ph) && ph.Slot?
    ensures PhaseOk(Next(c, ph, b)) && Rank(Next(c, ph, b)) < Rank(ph)
  {
    var i' := 2 * ph.i + B(b);
    if i' >= 64 { AfterSlotOk(ph.len, i' - 64); }
  }

  lemma SpecStep(m: nat, left: nat)
    requires left > 0 && m * Pow2(left) <= 32
    ensures 2 * m * Pow2(left - 1) <= 32 && m <= 16
  {
    assert m * Pow2(left) == m * 2 * Pow2(left - 1);
    MulMono(m, 1, Pow2(left - 1));
  }

  lemma DirectStep(d: nat, d': nat, left: nat)
    requires left > 0 && (d + 1) * Pow2(left) <= 0x1000_0000 && d' <= 2 * d + 1
    ensures (d' + 1) * Pow2(left - 1) <= 0x1000_0000
    ensures left == 1 ==> d' < 0x1000_0000
  {
    assert (d + 1) * Pow2(left) == (2 * d + 2) * Pow2(left - 1);
    MulMono(Pow2(left - 1), d' + 1, 2 * d + 2);
    assert left == 1 ==> Pow2(left - 1) == 1;
  }

  lemma AfterSlotOk(len: nat, slot: nat)
    requires len < 272 && slot < 64
    ensures PhaseOk(AfterSlot(len, slot)) && Rank(AfterSlot(len, slot)) <= 31
  {
    assert Pow2(1) == 2 && Pow2(2) == 4 && Pow2(3) == 8 && Pow2(4) == 16 && Pow2(5) == 32;
    if slot >= 14 { Pow2Below26(slot / 2 - 5); }
  }

  lemma Pow2Below26(n: nat)
    requires n <= 26
    ensures Pow2(n) <= 0x400_0000
  {
    Pow2Below(n, 26);
    Pow2Add(13, 13);
    assert Pow2(13) == 8192;
  }

  /** Every cell a symbol asks for lies inside the allocated table. */
  lemma AskInTable(c: Ctx, ph: Phase, n: nat)
    requires CtxOk(c, n) && PhaseOk(ph) && !ph.Done?
    ensures Ask(c, ph).Model? ==> Ask(c, ph).k < n
  {
    if ph.SpecDist? { SpecStep(ph.m, ph.left); }
  }
}
