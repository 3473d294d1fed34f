/** Running the symbol automaton on the range coder. With `adapt` this is what
    LZMA_DECODE_REAL does to the probabilities; without, what LzmaDec_TryDummy does. */
module SymbolRun {
  import opened Words
  import opened RangeCoder
  import opened Symbols

  datatype Micro = Micro(phase: Phase, probs: seq<nat>, coder: Coder)

  predicate ProbsOk(probs: seq<nat>) { forall k :: 0 <= k < |probs| ==> ProbOk(probs[k]) }

  predicate MicroOk(c: Ctx, m: Micro)
  {
    CtxOk(c, |m.probs|) && PhaseOk(m.phase) && ProbsOk(m.probs) && CoderOk(m.coder)
  }

  /** Answer one request with a normalized coder. */
  function Answer(c: Ctx, m: Micro, adapt: bool): (r: Micro)
    requires MicroOk(c, m) && !m.phase.Done? && TOP <= m.coder.range
    ensures MicroOk(c, r) && Rank(r.phase) < Rank(m.phase)
    ensures |r.probs| == |m.probs| && r.coder.pos == m.coder.pos
    ensures !adapt ==> r.probs == m.probs
  {
    AskInTable(c, m.phase, |m.probs|);
    match Ask(c, m.phase)
    case Model(k) =>
      var p := m.probs[k];
      var b := BitOf(m.coder, p);
      NextOk(c, m.phase, b);
      BitKeeps(m.coder, p);
      Micro(Next(c, m.phase, b), if adapt then m.probs[k := Adapt(p, b)] else m.probs, AfterBit(m.coder, p))
    case Raw =>
      var b := RawBit(m.coder);
      NextOk(c, m.phase, b);
      RawKeeps(m.coder);
      Micro(Next(c, m.phase, b), m.probs, AfterRaw(m.coder))
  }

  /** The whole symbol with its closing NORMALIZE; None when the input runs out. */
  function RunSymbol(c: Ctx, m: Micro, inp: seq<byte>, adapt: bool): (r: Option<Micro>)
    requires MicroOk(c, m)
    ensures r.Some? ==> MicroOk(c, r.value) && |r.value.probs| == |m.probs| && TOP <= r.value.coder.range
    ensures r.Some? ==> r.value.phase.Done? && m.coder.pos <= r.value.coder.pos
    ensures r.Some? && m.coder.pos <= |inp| ==> r.value.coder.pos <= |inp|
    ensures r.Some? && !adapt ==> r.value.probs == m.probs
    decreases Rank(m.phase)
  {
    match Normalize(m.coder, inp)
    case None => None
    case Some(n) =>
      if m.phase.Done? then Some(m.(coder := n))
      else RunSymbol(c, Answer(c, m.(coder := n), adapt), inp, adapt)
  }

  lemma RunNormalized(c: Ctx, m: Micro, inp: seq<byte>, adapt: bool)
    requires MicroOk(c, m) && !m.phase.Done? && TOP <= m.coder.range
    ensures RunSymbol(c, m, inp, adapt) == RunSymbol(c, Answer(c, m, adapt), inp, adapt)
  {
  }

  /** A pending NORMALIZE may as well be done first. */
  lemma RunLazy(c: Ctx, m: Micro, k: Coder, inp: seq<byte>, adapt: bool)
    requires MicroOk(c, m) && Normalize(m.coder, inp) == Some(k)
    ensures MicroOk(c, m.(coder := k)) && RunSymbol(c, m, inp, adapt) == RunSymbol(c, m.(coder := k), inp, adapt)
  {
  }

  // ---- Only the bytes actually read matter ----

  function Moved(c: Coder, n: nat): Coder { c.(pos := c.pos + n) }

  function MovedMicro(r: Option<Micro>, d: nat): Option<Micro>
  {
    match r
    case None => None
    case Some(m) => Some(m.(coder := Moved(m.coder, d)))
  }

  /** Bytes before the current position are irrelevant. */
  lemma {:induction false} RunShift(c: Ctx, m: Micro, pre: seq<byte>, inp: seq<byte>, adapt: bool)
    requires MicroOk(c, m)
    ensures RunSymbol(c, m.(coder := Moved(m.coder, |pre|)), pre + inp, adapt) ==
            MovedMicro(RunSymbol(c, m, inp, adapt), |pre|)
    decreases Rank(m.phase)
  {
    var m' := m.(coder := Moved(m.coder, |pre|));
    NormalizeShift(m.coder, pre, inp);
    var n := Normalize(m.coder, inp);
    if n.Some? && !m.phase.Done? {
      var a := Answer(c, m.(coder := n.value), adapt);
      RunShift(c, a, pre, inp, adapt);
      AnswerMoves(c, m.(coder := n.value), |pre|, adapt);
    }
  }

  lemma AnswerMoves(c: Ctx, m: Micro, d: nat, adapt: bool)
    requires MicroOk(c, m) && !m.phase.Done? && TOP <= m.coder.range
    ensures var a := Answer(c, m, adapt);
            Answer(c, m.(coder := Moved(m.coder, d)), adapt) == a.(coder := Moved(a.coder, d))
  {
  }

  lemma NormalizeShift(k: Coder, pre: seq<byte>, inp: seq<byte>)
    ensures Normalize(Moved(k, |pre|), pre + inp) ==
            match Normalize(k, inp) { case None => None case Some(n) => Some(Moved(n, |pre|)) }
  {
    if k.pos < |inp| { assert (pre + inp)[k.pos + |pre|] == inp[k.pos]; }
  }

  /** Reading on at `pos` of the whole input is reading the rest of it from its start. */
  lemma RunAtPos(c: Ctx, m: Micro, k: Coder, inp: seq<byte>, pos: nat, adapt: bool)
    requires MicroOk(c, m) && pos <= |inp| && k.pos == 0 && Normalize(m.coder, inp) == Some(Moved(k, pos))
    ensures MicroOk(c, m.(coder := k)) &&
            RunSymbol(c, m, inp, adapt) == MovedMicro(RunSymbol(c, m.(coder := k), inp[pos..], adapt), pos)
  {
    RunLazy(c, m, Moved(k, pos), inp, adapt);
    assert inp[..pos] + inp[pos..] == inp;
    RunShift(c, m.(coder := k), inp[..pos], inp[pos..], adapt);
  }

  /** Bytes after the last one read are irrelevant too. */
  lemma {:induction false} RunAgrees(c: Ctx, m: Micro, inp: seq<byte>, inp': seq<byte>, adapt: bool)
    requires MicroOk(c, m)
    requires RunSymbol(c, m, inp, adapt).Some?
    requires var e := RunSymbol(c, m, inp, adapt).value.coder.pos; e <= |inp| && e <= |inp'| && inp[..e] == inp'[..e]
    ensures RunSymbol(c, m, inp', adapt) == RunSymbol(c, m, inp, adapt)
    decreases Rank(m.phase)
  {
    var n := Normalize(m.coder, inp).value;
    var e := RunSymbol(c, m, inp, adapt).value.coder.pos;
    if m.phase.Done? {
      NormalizeAgrees(m.coder, inp, inp', e);
    } else {
      var a := Answer(c, m.(coder := n), adapt);
      RunEndsLater(c, a, inp, adapt);
      NormalizeAgrees(m.coder, inp, inp', e);
      RunAgrees(c, a, inp, inp', adapt);
    }
  }

  lemma NormalizeAgrees(k: Coder, inp: seq<byte>, inp': seq<byte>, e: nat)
    requires Normalize(k, inp).Some? && Normalize(k, inp).value.pos <= e <= |inp| && e <= |inp'| &&
             inp[..e] == inp'[..e]
    ensures Normalize(k, inp') == Normalize(k, inp)
  {
    if k.pos < Normalize(k, inp).value.pos { assert inp[..e][k.pos] == inp'[..e][k.pos]; }
  }

  lemma RunEndsLater(c: Ctx, m: Micro, inp: seq<byte>, adapt: bool)
    requires MicroOk(c, m) && RunSymbol(c, m, inp, adapt).Some?
    ensures m.coder.pos <= RunSymbol(c, m, inp, adapt).value.coder.pos
  {
  }

  /** More input never changes a symbol that was complete. */
  lemma RunExtends(c: Ctx, m: Micro, a: seq<byte>, b: seq<byte>, adapt: bool)
    requires MicroOk(c, m) && m.coder.pos <= |a| && RunSymbol(c, m, a, adapt).Some?
    ensures RunSymbol(c, m, a + b, adapt) == RunSymbol(c, m, a, adapt)
  {
    var e := RunSymbol(c, m, a, adapt).value.coder.pos;
    assert (a + b)[..e] == a[..e];
    RunAgrees(c, m, a, a + b, adapt);
  }

  /** A symbol that ends at byte e of the input is complete on exactly the prefixes of
      at least e bytes, and is the same symbol there. */
  lemma RunOnPrefix(c: Ctx, m: Micro, inp: seq<byte>, k: nat, adapt: bool)
    requires MicroOk(c, m) && m.coder.pos <= k <= |inp| && RunSymbol(c, m, inp, adapt).Some?
    ensures var e := RunSymbol(c, m, inp, adapt).value.coder.pos;
            RunSymbol(c, m, inp[..k], adapt) == if k < e then None else RunSymbol(c, m, inp, adapt)
  {
    if RunSymbol(c, m, inp, adapt).value.coder.pos <= k {
      LongPrefix(c, m, inp, k, adapt);
    } else {
      ShortPrefix(c, m, inp, k, adapt);
    }
  }

  lemma LongPrefix(c: Ctx, m: Micro, inp: seq<byte>, k: nat, adapt: bool)
    requires MicroOk(c, m) && m.coder.pos <= k <= |inp| && RunSymbol(c, m, inp, adapt).Some?
    requires RunSymbol(c, m, inp, adapt).value.coder.pos <= k
    ensures RunSymbol(c, m, inp[..k], adapt) == RunSymbol(c, m, inp, adapt)
  {
    var e := RunSymbol(c, m, inp, adapt).value.coder.pos;
    assert inp[..k][..e] == inp[..e];
    RunAgrees(c, m, inp, inp[..k], adapt);
  }

  lemma ShortPrefix(c: Ctx, m: Micro, inp: seq<byte>, k: nat, adapt: bool)
    requires MicroOk(c, m) && m.coder.pos <= k <= |inp| && RunSymbol(c, m, inp, adapt).Some?
    requires k < RunSymbol(c, m, inp, adapt).value.coder.pos
    ensures RunSymbol(c, m, inp[..k], adapt) == None
  {
    assert inp[..k] + inp[k..] == inp;
    if RunSymbol(c, m, inp[..k], adapt).Some? {
      RunExtends(c, m, inp[..k], inp[k..], adapt);
    }
  }

  // ---- The dummy decoder agrees with the adapting one ----

  predicate InDist(j: nat) { j < IS_REP0_LONG || ALIGN <= j < IS_REP }
  predicate InSlots(j: nat) { POS_SLOT <= j < LITERAL }
  predicate InLen(src: Source, j: nat) { LenBase(src) <= j < LenBase(src) + 512 }

  /** Cells that can still be asked for from a phase onwards. */
  predicate CanAsk(c: Ctx, ph: Phase, j: nat)
  {
    match ph
    case AskMatch => true
    case LitPlain(s) => c.lit + s <= j < c.lit + 256
    case LitMatched(s, _) => c.lit <= j < c.lit + LIT_SIZE && (j - c.lit) % 256 >= s
    case AskRep => j < IS_MATCH || ALIGN <= j < LITERAL
    case AskG0 => IS_REP_G0 <= j < POS_SLOT || IS_REP0_LONG <= j < LEN
    case AskLong => IS_REP0_LONG <= j < LEN
    case AskG1 => IS_REP_G1 <= j < POS_SLOT || REP_LEN <= j < LEN
    case AskG2 => IS_REP_G2 <= j < POS_SLOT || REP_LEN <= j < LEN
    case LenChoice(src) => InLen(src, j) || (src.NewDist? && (InSlots(j) || InDist(j)))
    case LenChoice2(src) => (InLen(src, j) && j > LenBase(src)) || (src.NewDist? && (InSlots(j) || InDist(j)))
    case LenTree(src, band, i) =>
      (var t := LenBase(src) + BandBase(c, band); t + i <= j < t + BandLimit(band)) ||
      (src.NewDist? && (InSlots(j) || InDist(j)))
    case Slot(len, i) => (InSlots(j) && POS_SLOT + 64 * SlotGroup(len) + i <= j) || InDist(j)
    case SpecDist(_, base, i, _, _) => base + i <= j < IS_REP0_LONG
    case Direct(_, _, _) => ALIGN <= j < IS_REP
    case AlignBits(_, _, i, _) => ALIGN + i <= j < IS_REP
    case Done(_) => false
  }

  /** The cell a phase asks for cannot be asked for again from the next phase on. */
  lemma AskedOnce(c: Ctx, ph: Phase, b: bool, n: nat, j: nat)
    requires CtxOk(c, n) && PhaseOk(ph) && !ph.Done?
    requires CanAsk(c, Next(c, ph, b), j)
    ensures CanAsk(c, ph, j) && Ask(c, ph) != Model(j)
  {
    match ph
    case LitPlain(_) => AskedOnceLit(c, ph, b, n, j);
    case LitMatched(_, _) => AskedOnceMatched(c, ph, b, n, j);
    case LenTree(_, _, _) => AskedOnceLen(c, ph, b, n, j);
    case Slot(_, _) => AskedOnceSlot(c, ph, b, n, j);
    case LenChoice(_) => AskedOnceChoice(c, ph, b, n, j);
    case LenChoice2(_) => AskedOnceChoice(c, ph, b, n, j);
    case SpecDist(_, _, _, _, _) => AskedOnceDist(c, ph, b, n, j);
    case Direct(_, _, _) => AskedOnceDist(c, ph, b, n, j);
    case AlignBits(_, _, _, _) => AskedOnceDist(c, ph, b, n, j);
    case _ =>
  }

  lemma AskedOnceLit(c: Ctx, ph: Phase, b: bool, n: nat, j: nat)
    requires CtxOk(c, n) && PhaseOk(ph) && ph.LitPlain?
    requires CanAsk(c, Next(c, ph, b), j)
    ensures CanAsk(c, ph, j) && Ask(c, ph) != Model(j)
  {
  }

  lemma AskedOnceMatched(c: Ctx, ph: Phase, b: bool, n: nat, j: nat)
    requires CtxOk(c, n) && PhaseOk(ph) && ph.LitMatched?
    requires CanAsk(c, Next(c, ph, b), j)
    ensures CanAsk(c, ph, j) && Ask(c, ph) != Model(j)
  {
  }

  lemma AskedOnceLen(c: Ctx, ph: Phase, b: bool, n: nat, j: nat)
    requires CtxOk(c, n) && PhaseOk(ph) && ph.LenTree?
    requires CanAsk(c, Next(c, ph, b), j)
    ensures CanAsk(c, ph, j) && Ask(c, ph) != Model(j)
  {
  }

  lemma AskedOnceSlot(c: Ctx, ph: Phase, b: bool, n: nat, j: nat)
    requires CtxOk(c, n) && PhaseOk(ph) && ph.Slot?
    requires CanAsk(c, Next(c, ph, b), j)
    ensures CanAsk(c, ph, j) && Ask(c, ph) != Model(j)
  {
  }

  lemma AskedOnceChoice(c: Ctx, ph: Phase, b: bool, n: nat, j: nat)
    requires CtxOk(c, n) && PhaseOk(ph) && (ph.LenChoice? || ph.LenChoice2?)
    requires CanAsk(c, Next(c, ph, b), j)
    ensures CanAsk(c, ph, j) && Ask(c, ph) != Model(j)
  {
  }

  lemma AskedOnceDist(c: Ctx, ph: Phase, b: bool, n: nat, j: nat)
    requires CtxOk(c, n) && PhaseOk(ph) && (ph.SpecDist? || ph.Direct? || ph.AlignBits?)
    requires CanAsk(c, Next(c, ph, b), j)
    ensures CanAsk(c, ph, j) && Ask(c, ph) != Model(j)
  {
  }

  lemma AskIsAllowed(c: Ctx, ph: Phase, n: nat)
    requires CtxOk(c, n) && PhaseOk(ph) && !ph.Done?
    ensures Ask(c, ph).Model? ==> CanAsk(c, ph, Ask(c, ph).k)
  {
    if ph.SpecDist? { SpecStep(ph.m, ph.left); }
  }

  /** The cells a symbol asks for, in order. */
  function CellsAsked(c: Ctx, m: Micro, inp: seq<byte>, adapt: bool): seq<nat>
    requires MicroOk(c, m)
    decreases Rank(m.phase)
  {
    match Normalize(m.coder, inp)
    case None => []
    case Some(n) =>
      if m.phase.Done? then []
      else
        var rest := CellsAsked(c, Answer(c, m.(coder := n), adapt), inp, adapt);
        if Ask(c, m.phase).Model? then [Ask(c, m.phase).k] + rest else rest
  }

  /** Different cells, all of which can be asked for from a phase on. */
  ghost predicate Distinct(c: Ctx, ph: Phase, cells: seq<nat>)
  {
    (forall i :: 0 <= i < |cells| ==> CanAsk(c, ph, cells[i])) &&
    forall i, j :: 0 <= i < j < |cells| ==> cells[i] != cells[j]
  }

  /** No symbol, complete or not, asks for one cell twice. */
  lemma {:induction false} CellsDiffer(c: Ctx, m: Micro, inp: seq<byte>, adapt: bool)
    requires MicroOk(c, m)
    ensures Distinct(c, m.phase, CellsAsked(c, m, inp, adapt))
    decreases Rank(m.phase)
  {
    var n := Normalize(m.coder, inp);
    if n.Some? && !m.phase.Done? {
      var k := m.(coder := n.value);
      var a := Answer(c, k, adapt);
      CellsDiffer(c, a, inp, adapt);
      var b := AnswerIsNext(c, k, adapt);
      OneMoreCell(c, m.phase, b, |m.probs|, CellsAsked(c, a, inp, adapt));
    }
  }

  lemma OneMoreCell(c: Ctx, ph: Phase, b: bool, n: nat, rest: seq<nat>)
    requires CtxOk(c, n) && PhaseOk(ph) && !ph.Done? && Distinct(c, Next(c, ph, b), rest)
    ensures Distinct(c, ph, if Ask(c, ph).Model? then [Ask(c, ph).k] + rest else rest)
  {
    forall i | 0 <= i < |rest| ensures CanAsk(c, ph, rest[i]) && Ask(c, ph) != Model(rest[i]) {
      AskedOnce(c, ph, b, n, rest[i]);
    }
    AskIsAllowed(c, ph, n);
    if Ask(c, ph).Model? { FrontDiffers(Ask(c, ph).k, rest); }
  }

  lemma FrontDiffers(k: nat, rest: seq<nat>)
    requires forall i :: 0 <= i < |rest| ==> k != rest[i]
    requires forall i, j :: 0 <= i < j < |rest| ==> rest[i] != rest[j]
    ensures var cells := [k] + rest; forall i, j :: 0 <= i < j < |cells| ==> cells[i] != cells[j]
  {
  }

  lemma AnswerIsNext(c: Ctx, m: Micro, adapt: bool) returns (b: bool)
    requires MicroOk(c, m) && !m.phase.Done? && TOP <= m.coder.range
    ensures Answer(c, m, adapt).phase == Next(c, m.phase, b)
  {
    AskInTable(c, m.phase, |m.probs|);
    b := match Ask(c, m.phase) case Model(k) => BitOf(m.coder, m.probs[k]) case Raw => RawBit(m.coder);
  }

  ghost predicate SameWhereAsked(c: Ctx, ph: Phase, p: seq<nat>, q: seq<nat>)
  {
    |p| == |q| && forall j :: 0 <= j < |p| && CanAsk(c, ph, j) ==> p[j] == q[j]
  }

  /** Adapting as it goes, or reading the table as it was: same symbol, same coder. */
  lemma {:induction false} DummyAgrees(c: Ctx, m: Micro, d: Micro, inp: seq<byte>)
    requires MicroOk(c, m) && MicroOk(c, d)
    requires m.phase == d.phase && m.coder == d.coder && SameWhereAsked(c, m.phase, m.probs, d.probs)
    ensures RunSymbol(c, m, inp, true).Some? == RunSymbol(c, d, inp, false).Some?
    ensures RunSymbol(c, m, inp, true).Some? ==>
              RunSymbol(c, m, inp, true).value.phase == RunSymbol(c, d, inp, false).value.phase &&
              RunSymbol(c, m, inp, true).value.coder == RunSymbol(c, d, inp, false).value.coder
    decreases Rank(m.phase)
  {
    var n := Normalize(m.coder, inp);
    if n.Some? && !m.phase.Done? {
      AnswersAgree(c, m.(coder := n.value), d.(coder := n.value));
      DummyAgrees(c, Answer(c, m.(coder := n.value), true), Answer(c, d.(coder := n.value), false), inp);
    }
  }

  lemma AnswersAgree(c: Ctx, m: Micro, d: Micro)
    requires MicroOk(c, m) && MicroOk(c, d) && !m.phase.Done? && TOP <= m.coder.range
    requires m.phase == d.phase && m.coder == d.coder && SameWhereAsked(c, m.phase, m.probs, d.probs)
    ensures var m', d' := Answer(c, m, true), Answer(c, d, false);
            m'.phase == d'.phase && m'.coder == d'.coder && SameWhereAsked(c, m'.phase, m'.probs, d'.probs)
  {
    AskIsAllowed(c, m.phase, |m.probs|);
    AskInTable(c, m.phase, |m.probs|);
    var m', d' := Answer(c, m, true), Answer(c, d, false);
    var b := match Ask(c, m.phase) case Model(k) => BitOf(m.coder, m.probs[k]) case Raw => RawBit(m.coder);
    assert m'.phase == Next(c, m.phase, b);
    forall j | 0 <= j < |m.probs| && CanAsk(c, m'.phase, j)
      ensures m'.probs[j] == d'.probs[j]
    {
      AskedOnce(c, m.phase, b, |m.probs|, j);
    }
  }
}
