/** What a symbol leaves behind and which cells it uses, said in the format's own terms. */
module SymbolContext {
  import opened Words
  import opened RangeCoder
  import opened Symbols
  import opened Decoder

  // ---- The four distances ----

  function Queue(r: Reps): seq<nat> { [r.r0, r.r1, r.r2, r.r3] }

  /** A repeat moves its distance to the front, a new match pushes its own, nothing else changes them. */
  lemma DistancesMoveToFront(d: Dec, s: Sym)
    requires SymOk(s)
    ensures var q, q' := Queue(d.reps), Queue(Turn(d, s).reps);
            if s.Rep? then q' == [q[s.which]] + q[..s.which] + q[s.which + 1..]
            else if s.Match? then q' == [s.dist + 1] + q[..3]
            else q' == q
  {
  }

  // ---- The state ----

  datatype Kind = Literal | Fresh | Repeat | Short

  function KindOf(s: Sym): Kind
    requires !s.EndMark?
  {
    match s
    case Lit(_) => Literal
    case Match(_, _) => Fresh
    case Rep(_, _) => Repeat
    case ShortRep => Short
  }

  /** How many literals end the history. */
  function Trailing(h: seq<Kind>): (t: nat)
    ensures t <= |h| && (t < |h| ==> !h[|h| - 1 - t].Literal?)
    ensures forall i :: |h| - t <= i < |h| ==> h[i].Literal?
  {
    if |h| == 0 || !h[|h| - 1].Literal? then 0 else 1 + Trailing(h[..|h| - 1])
  }

  /** The state names the last symbols: a match, a repeat or a short repeat, after a literal or
      not, and up to two literals since; three literals forget it. */
  function StateOf(h: seq<Kind>): nat
  {
    var t := Trailing(h);
    if t == |h| || t >= 3 then 0
    else
      var last := |h| - 1 - t;
      var afterLiteral := last == 0 || h[last - 1].Literal?;
      var shortLike := h[last].Short? && afterLiteral;
      var row := if h[last].Fresh? then 0 else if shortLike then 2 else 1;
      if t == 0 then (if afterLiteral then 7 else 10) + row
      else if t == 1 then 4 + row
      else 1 + row
  }

  /** The state the decoder has after symbols of these kinds. */
  function StateAfter(state: nat, k: Kind): nat
  {
    match k
    case Literal => LitState(state)
    case Fresh => if state < 7 then 7 else 10
    case Repeat => if state < 7 then 8 else 11
    case Short => if state < 7 then 9 else 11
  }

  lemma TurnIsStateAfter(d: Dec, s: Sym)
    requires SymOk(s) && !s.EndMark?
    ensures Turn(d, s).state == StateAfter(d.state, KindOf(s))
  {
  }

  function StateRun(h: seq<Kind>): nat
  {
    if |h| == 0 then 0 else StateAfter(StateRun(h[..|h| - 1]), h[|h| - 1])
  }

  lemma TrailingStep(h: seq<Kind>, k: Kind)
    ensures Trailing(h + [k]) == if k.Literal? then Trailing(h) + 1 else 0
  {
    assert (h + [k])[..|h|] == h;
  }

  lemma StateStep(h: seq<Kind>, k: Kind)
    ensures StateOf(h + [k]) == StateAfter(StateOf(h), k)
    ensures StateOf(h) < 7 <==> |h| == 0 || h[|h| - 1].Literal?
  {
    TrailingStep(h, k);
  }

  /** After every history of symbols the decoder is in the state that names it. */
  lemma {:induction false} StateNamesHistory(h: seq<Kind>)
    ensures StateRun(h) == StateOf(h)
  {
    if |h| > 0 {
      StateNamesHistory(h[..|h| - 1]);
      StateStep(h[..|h| - 1], h[|h| - 1]);
      assert h == h[..|h| - 1] + [h[|h| - 1]];
    }
  }

  // ---- The cells ----

  /** The arrays of the format, with their indices. */
  datatype Cell =
    | IsMatch(state: nat, pos: nat)
    | IsRep(state: nat)
    | IsRepG0(state: nat)
    | IsRepG1(state: nat)
    | IsRepG2(state: nat)
    | IsRep0Long(state: nat, pos: nat)
    | Choice(isNew: bool)
    | Choice2(isNew: bool)
    | Low(isNew: bool, pos: nat, node: nat)
    | Mid(isNew: bool, pos: nat, node: nat)
    | High(isNew: bool, node: nat)
    | PosSlot(lenState: nat, node: nat)
    | PosSpecial(index: nat)
    | PosAlign(node: nat)
    | LiteralTree(coder: nat, node: nat)

  function LitCoder(c: Ctx): int { (c.lit - LITERAL) / LIT_SIZE }

  /** The cell that a phase needs. */
  function CellOf(c: Ctx, ph: Phase): Cell
    requires !ph.Done? && !ph.Direct? && LITERAL <= c.lit
  {
    var pos := c.posState / 16;
    match ph
    case AskMatch => IsMatch(c.state, pos)
    case LitPlain(s) => LiteralTree(LitCoder(c), s)
    case LitMatched(s, mb) => LiteralTree(LitCoder(c), (if mb >= 128 then 512 else 256) + s)
    case AskRep => IsRep(c.state)
    case AskG0 => IsRepG0(c.state)
    case AskLong => IsRep0Long(c.state, pos)
    case AskG1 => IsRepG1(c.state)
    case AskG2 => IsRepG2(c.state)
    case LenChoice(src) => Choice(src.NewDist?)
    case LenChoice2(src) => Choice2(src.NewDist?)
    case LenTree(src, band, i) =>
      if band == 0 then Low(src.NewDist?, pos, i)
      else if band == 1 then Mid(src.NewDist?, pos, i) else High(src.NewDist?, i)
    case Slot(len, i) => PosSlot(if len == 0 then 0 else if len == 1 then 1 else if len == 2 then 2 else 3, i)
    case SpecDist(_, base, i, _, _) => PosSpecial(base + i)
    case AlignBits(_, _, i, _) => PosAlign(i)
  }

  function LenCellAt(isNew: bool, k: nat): Cell
  {
    if k >= 256 then High(isNew, k - 256)
    else if k == 0 then Choice(isNew)
    else if k == 8 then Choice2(isNew)
    else if k % 16 < 8 then Low(isNew, k / 16, k % 16)
    else Mid(isNew, k / 16, k % 16 - 8)
  }

  /** Which cell an address is. */
  function CellAt(k: nat): Cell
  {
    if k < IS_REP0_LONG then PosSpecial(k)
    else if k < REP_LEN then IsRep0Long((k - IS_REP0_LONG) % 16, (k - IS_REP0_LONG) / 16)
    else if k < LEN then LenCellAt(false, k - REP_LEN)
    else if k < IS_MATCH then LenCellAt(true, k - LEN)
    else if k < ALIGN then IsMatch((k - IS_MATCH) % 16, (k - IS_MATCH) / 16)
    else if k < IS_REP then PosAlign(k - ALIGN)
    else if k < IS_REP_G0 then IsRep(k - IS_REP)
    else if k < IS_REP_G1 then IsRepG0(k - IS_REP_G0)
    else if k < IS_REP_G2 then IsRepG1(k - IS_REP_G1)
    else if k < POS_SLOT then IsRepG2(k - IS_REP_G2)
    else if k < LITERAL then PosSlot((k - POS_SLOT) / 64, (k - POS_SLOT) % 64)
    else LiteralTree((k - LITERAL) / LIT_SIZE, (k - LITERAL) % LIT_SIZE)
  }

  predicate Aligned(c: Ctx) { LITERAL <= c.lit && (c.lit - LITERAL) % LIT_SIZE == 0 }

  /** Every modelled bit uses the cell that the format names for it. */
  lemma AskIsCell(c: Ctx, ph: Phase, n: nat)
    requires CtxOk(c, n) && Aligned(c) && PhaseOk(ph) && !ph.Done? && !ph.Direct?
    ensures Ask(c, ph).Model? && CellAt(Ask(c, ph).k) == CellOf(c, ph)
  {
    if ph.LitPlain? || ph.LitMatched? {
      LitCell(c, ph);
    } else if ph.SpecDist? || ph.LenTree? || ph.Slot? || ph.AlignBits? {
      TreeCell(c, ph, n);
    } else {
      HeadCell(c, ph, n);
    }
  }

  lemma TreeCell(c: Ctx, ph: Phase, n: nat)
    requires CtxOk(c, n) && PhaseOk(ph) && (ph.SpecDist? || ph.LenTree? || ph.Slot? || ph.AlignBits?)
    ensures Ask(c, ph).Model? && CellAt(Ask(c, ph).k) == CellOf(c, ph)
  {
    match ph
    case SpecDist(len, base, i, m, left) => SpecCell(len, base, i, m, left);
    case LenTree(src, band, i) => LenCell(c, src, band, i, n);
    case Slot(len, i) => SlotCellAt(SlotGroup(len), i);
    case AlignBits(_, _, i, _) => AlignCellAt(i);
  }

  lemma LitCell(c: Ctx, ph: Phase)
    requires Aligned(c) && PhaseOk(ph) && (ph.LitPlain? || ph.LitMatched?)
    ensures Ask(c, ph).Model? && CellAt(Ask(c, ph).k) == CellOf(c, ph)
  {
    if ph.LitPlain? { LitCellAt(c, ph.symbol); } else { MatchedCell(c, ph.symbol, ph.matchByte); }
  }

  lemma MatchedCell(c: Ctx, s: nat, mb: nat)
    requires Aligned(c) && s < 256 && mb < 256
    ensures CellAt(c.lit + 0x100 * (1 + mb / 128) + s) == LiteralTree(LitCoder(c), (if mb >= 128 then 512 else 256) + s)
  {
    LitCellAt(c, (if mb >= 128 then 512 else 256) + s);
  }

  lemma SpecCell(len: nat, base: nat, i: nat, m: nat, left: nat)
    requires PhaseOk(SpecDist(len, base, i, m, left))
    ensures CellAt(SPEC_POS + base + i) == PosSpecial(base + i)
  {
    SpecStep(m, left);
  }

  lemma HeadCell(c: Ctx, ph: Phase, n: nat)
    requires CtxOk(c, n) && PhaseOk(ph)
    requires ph.AskMatch? || ph.AskRep? || ph.AskG0? || ph.AskLong? || ph.AskG1? || ph.AskG2? || ph.LenChoice? ||
             ph.LenChoice2?
    ensures Ask(c, ph).Model? && CellAt(Ask(c, ph).k) == CellOf(c, ph)
  {
    PosCells(c, n);
    StateCells(c.state);
    if ph.LenChoice? || ph.LenChoice2? { LenCellIn(ph.src.NewDist?, if ph.LenChoice? then 0 else 8); }
  }

  lemma StateCells(state: nat)
    requires state < 12
    ensures CellAt(IS_REP + state) == IsRep(state) && CellAt(IS_REP_G0 + state) == IsRepG0(state)
    ensures CellAt(IS_REP_G1 + state) == IsRepG1(state) && CellAt(IS_REP_G2 + state) == IsRepG2(state)
  {
  }

  lemma AlignCellAt(i: nat)
    requires i < 16
    ensures CellAt(ALIGN + i) == PosAlign(i)
  {
  }

  lemma LitCellAt(c: Ctx, s: nat)
    requires Aligned(c) && s < LIT_SIZE
    ensures CellAt(c.lit + s) == LiteralTree(LitCoder(c), s)
  {
    ModUnique(c.lit - LITERAL + s, LIT_SIZE, LitCoder(c), s);
  }

  lemma SlotCellAt(group: nat, i: nat)
    requires group < 4 && i < 64
    ensures CellAt(POS_SLOT + 64 * group + i) == PosSlot(group, i)
  {
    ModUnique(64 * group + i, 64, group, i);
  }

  lemma PosCells(c: Ctx, n: nat)
    requires CtxOk(c, n)
    ensures CellAt(IS_MATCH + c.posState + c.state) == IsMatch(c.state, c.posState / 16)
    ensures CellAt(IS_REP0_LONG + c.posState + c.state) == IsRep0Long(c.state, c.posState / 16)
  {
    ModUnique(c.posState + c.state, 16, c.posState / 16, c.state);
  }

  lemma LenCell(c: Ctx, src: Source, band: nat, i: nat, n: nat)
    requires CtxOk(c, n) && PhaseOk(LenTree(src, band, i))
    ensures CellAt(LenBase(src) + BandBase(c, band) + i) == CellOf(c, LenTree(src, band, i))
  {
    if band < 2 { ModUnique(BandBase(c, band) + i, 16, c.posState / 16, 8 * band + i); }
    LenCellIn(src.NewDist?, BandBase(c, band) + i);
  }

  lemma LenCellIn(isNew: bool, k: nat)
    requires k < 512
    ensures CellAt((if isNew then LEN else REP_LEN) + k) == LenCellAt(isNew, k)
  {
  }

  /** Where a cell is. */
  function AddressOf(x: Cell): int
  {
    match x
    case IsMatch(state, pos) => IS_MATCH + 16 * pos + state
    case IsRep(state) => IS_REP + state
    case IsRepG0(state) => IS_REP_G0 + state
    case IsRepG1(state) => IS_REP_G1 + state
    case IsRepG2(state) => IS_REP_G2 + state
    case IsRep0Long(state, pos) => IS_REP0_LONG + 16 * pos + state
    case Choice(isNew) => if isNew then LEN else REP_LEN
    case Choice2(isNew) => (if isNew then LEN else REP_LEN) + 8
    case Low(isNew, pos, node) => (if isNew then LEN else REP_LEN) + 16 * pos + node
    case Mid(isNew, pos, node) => (if isNew then LEN else REP_LEN) + 16 * pos + 8 + node
    case High(isNew, node) => (if isNew then LEN else REP_LEN) + 256 + node
    case PosSlot(lenState, node) => POS_SLOT + 64 * lenState + node
    case PosSpecial(index) => index
    case PosAlign(node) => ALIGN + node
    case LiteralTree(coder, node) => LITERAL + LIT_SIZE * coder + node
  }

  lemma CellIsAddress(c: Ctx, ph: Phase, n: nat)
    requires CtxOk(c, n) && Aligned(c) && PhaseOk(ph) && !ph.Done? && !ph.Direct?
    ensures Ask(c, ph) == Model(AddressOf(CellOf(c, ph)))
  {
    assert 16 * (c.posState / 16) == c.posState && LIT_SIZE * LitCoder(c) == c.lit - LITERAL;
  }

  /** Two bits share a cell exactly when the format names the same one for both. */
  lemma CellsAreShared(c: Ctx, ph: Phase, c': Ctx, ph': Phase, n: nat)
    requires CtxOk(c, n) && Aligned(c) && PhaseOk(ph) && !ph.Done? && !ph.Direct?
    requires CtxOk(c', n) && Aligned(c') && PhaseOk(ph') && !ph'.Done? && !ph'.Direct?
    ensures Ask(c, ph) == Ask(c', ph') <==> CellOf(c, ph) == CellOf(c', ph')
  {
    AskIsCell(c, ph, n);
    AskIsCell(c', ph', n);
    CellIsAddress(c, ph, n);
    CellIsAddress(c', ph', n);
  }

  /** The context of every symbol is aligned. */
  lemma ContextIsAligned(p: Props, d: Dec)
    requires DecOk(p, d)
    ensures Aligned(CtxOf(p, d))
  {
    LitBaseInTable(p, d.out);
    if |d.out| > 0 {
      var g := LitGroup(p, |d.out|, d.out[|d.out| - 1]);
      ModUnique(LIT_SIZE * g, LIT_SIZE, g, 0);
    }
  }

  // ---- The probabilities ----

  /** A cell that keeps seeing one answer comes to rest exactly at the two ends. */
  lemma AdaptRests(p: nat)
    requires ProbOk(p)
    ensures Adapt(p, true) == p <==> p == PROB_MIN
    ensures Adapt(p, false) == p <==> p == PROB_MAX
    ensures Adapt(p, true) <= p <= Adapt(p, false)
  {
  }

  /** The answer 0 gets the share p / 2048 of the range, up to rounding. */
  lemma BoundIsShare(range: nat, p: nat)
    requires p <= BIT_TOTAL
    ensures BIT_TOTAL * Bound(range, p) <= range * p < BIT_TOTAL * Bound(range, p) + BIT_TOTAL * p + 1
  {
    var q, r := range / BIT_TOTAL, range % BIT_TOTAL;
    assert range * p == (BIT_TOTAL * q + r) * p == BIT_TOTAL * (q * p) + r * p;
    MulMono(p, 0, r);
    MulMono(p, r, BIT_TOTAL);
  }
}
