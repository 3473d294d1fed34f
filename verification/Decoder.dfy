/** What the decoder computes, symbol by symbol: the reference that the streaming
    implementation is proved against. The dictionary is the linear output buffer. */
module Decoder {
  import opened Words
  import opened RangeCoder
  import opened Symbols
  import opened SymbolRun
  import opened InputBound
  import opened Dictionary

  const DIC_MIN := 0x1000             // LZMA_DIC_MIN
  const SPEC_LEN_START := 274         // kMatchSpecLenStart: the stream is finished
  const BAD_REP_CODE := 0xBFFF_FC00   // kBadRepCode
  const FULL_RANGE := 0xFFFF_FFFF
  const PROB_INIT := 1024

  datatype Props = Props(lc: nat, lp: nat, pb: nat, dicSize: nat)

  predicate PropsOk(p: Props) { p.lc <= 8 && p.lp <= 4 && p.pb <= 4 && DIC_MIN <= p.dicSize < WORD }

  function NumProbs(p: Props): nat { LITERAL + LIT_SIZE * Pow2(p.lc + p.lp) }

  datatype Reps = Reps(r0: nat, r1: nat, r2: nat, r3: nat)

  /** The decoder between two symbols, with a normalized range coder. */
  datatype Dec = Dec(probs: seq<nat>, state: nat, reps: Reps, range: nat, code: nat, out: seq<byte>, remainLen: nat)

  predicate RepOk(r: nat, n: nat) { 1 <= r && (r == 1 || r <= n) }
  predicate RepsOk(r: Reps, n: nat) { RepOk(r.r0, n) && RepOk(r.r1, n) && RepOk(r.r2, n) && RepOk(r.r3, n) }

  predicate FreshProbs(probs: seq<nat>) { forall k :: 0 <= k < |probs| ==> probs[k] == PROB_INIT }

  predicate DecOk(p: Props, d: Dec)
  {
    PropsOk(p) && |d.probs| == NumProbs(p) && ProbsOk(d.probs) && d.state < 12 && RepsOk(d.reps, |d.out|) &&
    TOP <= d.range < WORD && d.code < WORD && d.remainLen <= SPEC_LEN_START &&
    (|d.out| == 0 ==>
     d.state == 0 &&
     (d.remainLen == SPEC_LEN_START || (d.remainLen == 0 && d.range == FULL_RANGE && FreshProbs(d.probs))))
  }

  // ---- The context of a symbol ----

  /** One group of 0x300 cells for each value of lp position bits and lc high bits of
      the last byte. */
  function LitGroup(p: Props, pos: nat, prev: byte): nat
    requires PropsOk(p)
  {
    pos % Pow2(p.lp) * Pow2(p.lc) + prev / Pow2(8 - p.lc)
  }

  function LitBase(p: Props, out: seq<byte>): nat
    requires PropsOk(p)
  {
    if |out| == 0 then LITERAL else LITERAL + LIT_SIZE * LitGroup(p, |out|, out[|out| - 1])
  }

  function CtxOf(p: Props, d: Dec): (c: Ctx)
    requires DecOk(p, d)
    ensures CtxOk(c, |d.probs|)
  {
    LitBaseInTable(p, d.out);
    PosStateFits(|d.out|, p.pb);
    Ctx(d.state, |d.out| % Pow2(p.pb) * 16, LitBase(p, d.out),
        if d.state < 7 then 0 else Back(d.out, d.reps.r0))
  }

  lemma PosStateFits(n: nat, pb: nat)
    requires pb <= 4
    ensures n % Pow2(pb) <= 15
  {
    Pow2Below(pb, 4);
    assert Pow2(4) == 16;
  }

  lemma LitBaseInTable(p: Props, out: seq<byte>)
    requires PropsOk(p)
    ensures LITERAL <= LitBase(p, out) && LitBase(p, out) + LIT_SIZE <= NumProbs(p)
  {
    if |out| > 0 { LitGroupFits(p, |out|, out[|out| - 1]); }
  }

  lemma LitGroupFits(p: Props, pos: nat, prev: byte)
    requires PropsOk(p)
    ensures LitGroup(p, pos, prev) < Pow2(p.lc + p.lp)
  {
    Pow2Add(p.lp, p.lc);
    HighBits(prev, p.lc);
    LitIndexFits(pos % Pow2(p.lp), Pow2(p.lp), prev / Pow2(8 - p.lc), Pow2(p.lc));
  }

  lemma LitIndexFits(hi: nat, hiEnd: nat, low: nat, lowEnd: nat)
    requires hi < hiEnd && low < lowEnd
    ensures hi * lowEnd + low + 1 <= hiEnd * lowEnd
  {
    MulMono(lowEnd, hi + 1, hiEnd);
  }

  lemma HighBits(b: byte, lc: nat)
    requires lc <= 8
    ensures b / Pow2(8 - lc) < Pow2(lc)
  {
    Pow2Add(8 - lc, lc);
    assert Pow2(8) == 256;
    var u, q := Pow2(8 - lc), b / Pow2(8 - lc);
    assert u * q <= b;
    if q >= Pow2(lc) { MulMono(u, Pow2(lc), q); }
  }

  function StartOf(d: Dec, pos: nat): Micro { Micro(AskMatch, d.probs, Coder(d.range, d.code, pos)) }

  /** The next symbol and its closing NORMALIZE; None when `inp` does not hold all of it. */
  function Symbol(p: Props, d: Dec, inp: seq<byte>): Option<Micro>
    requires DecOk(p, d)
  {
    RunSymbol(CtxOf(p, d), StartOf(d, 0), inp, true)
  }

  // ---- Applying a symbol ----

  function LitState(s: nat): nat { if s < 4 then 0 else if s < 10 then s - 3 else s - 6 }

  function PickRep(r: Reps, which: nat): Reps
    requires which < 4
  {
    match which
    case 0 => r
    case 1 => Reps(r.r1, r.r0, r.r2, r.r3)
    case 2 => Reps(r.r2, r.r0, r.r1, r.r3)
    case _ => Reps(r.r3, r.r0, r.r1, r.r2)
  }

  function Min(a: nat, b: nat): nat { if a < b then a else b }

  /** Copy as much as fits under the limit and remember the rest. */
  function Copy(d: Dec, len: nat, limit: nat): Dec
    requires |d.out| <= limit
  {
    var n := Min(len, limit - |d.out|);
    d.(out := Expand(d.out, d.reps.r0, n), remainLen := len - n)
  }

  /** The state and the distances a symbol leaves behind. */
  function Turn(d: Dec, s: Sym): Dec
    requires SymOk(s)
  {
    match s
    case Lit(_) => d.(state := LitState(d.state))
    case ShortRep => d.(state := if d.state < 7 then 9 else 11)
    case Rep(w, _) => d.(reps := PickRep(d.reps, w), state := if d.state < 7 then 8 else 11)
    case Match(dist, _) =>
      d.(reps := Reps(dist + 1, d.reps.r0, d.reps.r1, d.reps.r2), state := if d.state < 7 then 7 else 10)
    case EndMark => d
  }

  /** The effect of a symbol; None is corrupt data: no room, or a distance out of reach. */
  function ApplySym(p: Props, d: Dec, s: Sym, limit: nat): Option<Dec>
    requires SymOk(s) && |d.out| <= limit
  {
    match s
    case Lit(b) => Some(Turn(d, s).(out := d.out + [b]))
    case ShortRep => Some(Turn(d, s).(out := Expand(d.out, d.reps.r0, 1)))
    case EndMark => Some(d.(remainLen := SPEC_LEN_START))
    case Rep(_, len) => if |d.out| == limit then None else Some(Copy(Turn(d, s), len + 2, limit))
    case Match(dist, len) =>
      if |d.out| == limit || dist >= Min(|d.out|, p.dicSize) then None else Some(Copy(Turn(d, s), len + 2, limit))
  }

  predicate IsRepKind(s: Sym) { s.Rep? || s.ShortRep? }
  predicate IsMatchKind(s: Sym) { s.Match? || s.EndMark? }

  function WithCoder(d: Dec, m: Micro): Dec
  {
    d.(probs := m.probs, range := m.coder.range, code := m.coder.code)
  }

  predicate DecAlmostOk(p: Props, d: Dec)
  {
    PropsOk(p) && |d.probs| == NumProbs(p) && ProbsOk(d.probs) && d.state < 12 && RepsOk(d.reps, |d.out|) &&
    TOP <= d.range < WORD && d.code < WORD && d.remainLen <= SPEC_LEN_START
  }

  /** Everything that must hold between symbols holds again after one. */
  lemma ApplyKeepsOk(p: Props, d: Dec, s: Sym, limit: nat)
    requires DecAlmostOk(p, d) && d.remainLen == 0 && SymOk(s) && |d.out| <= limit
    requires |d.out| == 0 ==> d.state == 0 && !IsRepKind(s)
    requires |d.out| == limit ==> IsMatchKind(s)
    ensures var r := ApplySym(p, d, s, limit);
            r.Some? ==> DecOk(p, r.value) && |r.value.out| <= limit &&
                        if s.EndMark? then r.value.out == d.out && r.value.remainLen == SPEC_LEN_START
                        else |d.out| < |r.value.out| && r.value.remainLen < SPEC_LEN_START &&
                             (r.value.remainLen == 0 || |r.value.out| == limit)
  {
  }

  // ---- The first symbol ----

  /** Phases of a symbol that will turn out to be a repeat match. */
  predicate RepPhase(ph: Phase)
  {
    match ph
    case AskG0 => true
    case AskLong => true
    case AskG1 => true
    case AskG2 => true
    case LenChoice(src) => src.OldDist?
    case LenChoice2(src) => src.OldDist?
    case LenTree(src, _, _) => src.OldDist?
    case Done(s) => IsRepKind(s)
    case _ => false
  }

  /** Once both kinds are possible no more, the kind is settled. */
  lemma {:induction false} KindIsKept(c: Ctx, m: Micro, inp: seq<byte>, adapt: bool)
    requires MicroOk(c, m) && !m.phase.AskMatch? && !m.phase.AskRep?
    ensures var r := RunSymbol(c, m, inp, adapt); r.Some? ==> IsRepKind(r.value.phase.sym) == RepPhase(m.phase)
    decreases Rank(m.phase)
  {
    var n := Normalize(m.coder, inp);
    if n.Some? && !m.phase.Done? {
      var a := Answer(c, m.(coder := n.value), adapt);
      AnswerKeepsKind(c, m.(coder := n.value), adapt);
      KindIsKept(c, a, inp, adapt);
    }
  }

  lemma AnswerKeepsKind(c: Ctx, m: Micro, adapt: bool)
    requires MicroOk(c, m) && !m.phase.Done? && TOP <= m.coder.range && !m.phase.AskMatch? && !m.phase.AskRep?
    ensures var a := Answer(c, m, adapt);
            !a.phase.AskMatch? && !a.phase.AskRep? && RepPhase(a.phase) == RepPhase(m.phase)
  {
    AskInTable(c, m.phase, |m.probs|);
  }

  /** A modelled bit at even odds, as every cell starts out. */
  lemma EvenBit(c: Ctx, m: Micro, k: nat)
    requires MicroOk(c, m) && !m.phase.Done? && TOP <= m.coder.range
    requires Ask(c, m.phase) == Model(k) && k < |m.probs| && m.probs[k] == PROB_INIT
    ensures var half := m.coder.range / 2048 * 1024; var b := m.coder.code >= half;
            var a := Answer(c, m, true);
            a.phase == Next(c, m.phase, b) && (forall j :: 0 <= j < |m.probs| && j != k ==> a.probs[j] == m.probs[j]) &&
            (b ==> a.coder == Coder(m.coder.range - half, m.coder.code - half, m.coder.pos))
  {
  }

  /** On a fresh decoder the kBadRepCode test rejects exactly the streams whose first
      symbol is a repeat match. */
  lemma BadRepCodeIsRep(p: Props, d: Dec, inp: seq<byte>)
    requires DecOk(p, d) && |d.out| == 0 && d.remainLen == 0 && Symbol(p, d, inp).Some?
    ensures IsRepKind(Symbol(p, d, inp).value.phase.sym) <==> d.code >= BAD_REP_CODE
  {
    assert 0 % Pow2(p.pb) == 0;
    FirstSymbol(CtxOf(p, d), StartOf(d, 0), inp);
  }

  lemma FirstSymbol(c: Ctx, m: Micro, inp: seq<byte>)
    requires MicroOk(c, m) && m.phase.AskMatch? && m.coder.range == FULL_RANGE && FreshProbs(m.probs)
    requires c.state == 0 && c.posState == 0 && RunSymbol(c, m, inp, true).Some?
    ensures IsRepKind(RunSymbol(c, m, inp, true).value.phase.sym) <==> m.coder.code >= BAD_REP_CODE
  {
    RunNormalized(c, m, inp, true);
    EvenBit(c, m, IS_MATCH);
    var m1 := Answer(c, m, true);
    if m.coder.code < 0x7FFF_FC00 {
      assert m1.phase == LitPlain(1);
      KindIsKept(c, m1, inp, true);
    } else {
      assert m1.phase == AskRep && m1.coder.range == 0x8000_03FF && m1.probs[IS_REP] == PROB_INIT;
      SecondBit(c, m1, inp);
    }
  }

  lemma SecondBit(c: Ctx, m: Micro, inp: seq<byte>)
    requires MicroOk(c, m) && m.phase.AskRep? && m.coder.range == 0x8000_03FF && m.probs[IS_REP] == PROB_INIT
    requires c.state == 0 && RunSymbol(c, m, inp, true).Some?
    ensures IsRepKind(RunSymbol(c, m, inp, true).value.phase.sym) <==> m.coder.code >= 0x4000_0000
  {
    RunNormalized(c, m, inp, true);
    EvenBit(c, m, IS_REP);
    var m1 := Answer(c, m, true);
    assert m1.phase == if m.coder.code >= 0x4000_0000 then AskG0 else LenChoice(NewDist);
    KindIsKept(c, m1, inp, true);
  }

  // ---- Whole runs ----

  datatype FinishMode = FinishAny | FinishEnd

  datatype Status = NotSpecified | FinishedWithMark | NotFinished | NeedsMoreInput | MaybeFinishedWithoutMark

  /** `used` input bytes went into complete symbols. */
  datatype Outcome = Failed | Stopped(status: Status, dec: Dec, used: nat)

  function After(n: nat, o: Outcome): Outcome
  {
    match o
    case Failed => Failed
    case Stopped(s, d, u) => Stopped(s, d, n + u)
  }

  /** No pending copy, unless the output is full. */
  predicate Settled(d: Dec, limit: nat)
  {
    |d.out| <= limit && (d.remainLen == 0 || d.remainLen == SPEC_LEN_START || |d.out| == limit)
  }

  /** Decode one symbol; None is corrupt data. */
  function StepSym(p: Props, d: Dec, m: Micro, limit: nat): Option<Dec>
    requires DecOk(p, d) && m.phase.Done? && SymOk(m.phase.sym) && |d.out| <= limit
  {
    if |d.out| == limit && !IsMatchKind(m.phase.sym) then None
    else if |d.out| == 0 && d.code >= BAD_REP_CODE then None
    else ApplySym(p, WithCoder(d, m), m.phase.sym, limit)
  }

  lemma StepKeepsOk(p: Props, d: Dec, inp: seq<byte>, limit: nat)
    requires DecOk(p, d) && d.remainLen == 0 && |d.out| <= limit && Symbol(p, d, inp).Some?
    ensures var m := Symbol(p, d, inp).value; var r := StepSym(p, d, m, limit);
            r.Some? ==> DecOk(p, r.value) && Settled(r.value, limit) && |d.out| <= |r.value.out| &&
                        (r.value.remainLen == SPEC_LEN_START || |d.out| < |r.value.out|)
  {
    var m := Symbol(p, d, inp).value;
    if StepSym(p, d, m, limit).Some? {
      if |d.out| == 0 { BadRepCodeIsRep(p, d, inp); }
      ApplyKeepsOk(p, WithCoder(d, m), m.phase.sym, limit);
    }
  }

  /** Another symbol is wanted: there is room, or the end mark must still be seen. */
  predicate Going(d: Dec, limit: nat, fin: FinishMode)
  {
    d.remainLen == 0 && (|d.out| < limit || (d.code != 0 && fin.FinishEnd?))
  }

  /** Decode until the end mark, the limit, the end of the input or corrupt data. */
  function Decode(p: Props, d: Dec, inp: seq<byte>, limit: nat, fin: FinishMode): (o: Outcome)
    requires DecOk(p, d) && Settled(d, limit)
    ensures o.Stopped? ==> DecOk(p, o.dec) && Settled(o.dec, limit) && o.used <= |inp|
    decreases limit - |d.out|, if d.remainLen == SPEC_LEN_START then 0 else 1, 1
  {
    if d.remainLen == SPEC_LEN_START then
      if d.code != 0 then Failed else Stopped(FinishedWithMark, d, 0)
    else if Going(d, limit, fin) then Go(p, d, inp, limit, fin)
    else if d.remainLen == 0 && d.code == 0 then Stopped(MaybeFinishedWithoutMark, d, 0)
    else if fin.FinishAny? then Stopped(NotFinished, d, 0)
    else Failed
  }

  /** Decode a symbol, then go on. */
  function Go(p: Props, d: Dec, inp: seq<byte>, limit: nat, fin: FinishMode): (o: Outcome)
    requires DecOk(p, d) && |d.out| <= limit && d.remainLen == 0
    ensures o.Stopped? ==> DecOk(p, o.dec) && Settled(o.dec, limit) && o.used <= |inp|
    decreases limit - |d.out|, 1, 0
  {
    match Symbol(p, d, inp)
    case None => Stopped(NeedsMoreInput, d, 0)
    case Some(m) =>
      StepKeepsOk(p, d, inp, limit);
      match StepSym(p, d, m, limit)
      case None => Failed
      case Some(d') => After(m.coder.pos, Decode(p, d', inp[m.coder.pos..], limit, fin))
  }

  lemma GoStep(p: Props, d: Dec, inp: seq<byte>, limit: nat, fin: FinishMode)
    requires DecOk(p, d) && |d.out| <= limit && d.remainLen == 0 && Symbol(p, d, inp).Some?
    ensures var m := Symbol(p, d, inp).value; var d' := StepSym(p, d, m, limit);
            m.coder.pos <= |inp| && (d'.Some? ==> DecOk(p, d'.value) && Settled(d'.value, limit)) &&
            Go(p, d, inp, limit, fin) ==
            if d'.None? then Failed else After(m.coder.pos, Decode(p, d'.value, inp[m.coder.pos..], limit, fin))
  {
    StepKeepsOk(p, d, inp, limit);
  }
}
