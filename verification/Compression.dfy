/** Every list of symbols has an input that the decoder reads as that list, to its last byte. So
    every text can be stored, and comes back. */
module Compression {
  import opened Words
  import opened RangeCoder
  import opened Symbols
  import opened SymbolRun
  import opened SymbolCode
  import opened RangeEncoder
  import opened Dictionary
  import opened Decoder
  import opened Streaming
  import opened Expansion

  /** The symbol may come next: there is room for it, and what it copies is there. */
  predicate CanPlay(p: Props, z: Lz, s: Sym, limit: nat)
  {
    SymOk(s) && |PlaySym(z, s).out| < limit && (|z.out| == 0 ==> s.Lit? || s.EndMark?) &&
    (s.Match? ==> s.dist < |z.out| && s.dist < p.dicSize)
  }

  /** A list of symbols up to its end mark. */
  predicate Playable(p: Props, z: Lz, ss: seq<Sym>, limit: nat)
    decreases |ss|
  {
    |ss| > 0 && CanPlay(p, z, ss[0], limit) &&
    if ss[0].EndMark? then |ss| == 1 else Playable(p, PlaySym(z, ss[0]), ss[1..], limit)
  }

  function WithCode(d: Dec, code: nat): Dec { d.(code := code) }

  /** The symbol s from d, whatever the code. */
  function Spelled(p: Props, d: Dec, s: Sym): (m: Micro)
    requires DecOk(p, d) && SymOk(s)
    ensures m.phase == Done(s) && TOP <= m.coder.range
  {
    CodeIsRead(CtxOf(p, d), s, 0);
    Forward(CtxOf(p, d), StartOf(d, 0), CodeOf(s, 0))
  }

  /** Fed with x, the decoder finds the symbol s and then has `end`. */
  ghost predicate Reads(p: Props, d: Dec, x: Coded, s: Sym, end: Coded)
    requires DecOk(p, d) && SymOk(s)
  {
    x.code < d.range && Left(x, end) &&
    Symbol(p, WithCode(d, x.code), x.bytes) == Some(At(Spelled(p, d, s), end.code, |x.bytes| - |end.bytes|))
  }

  lemma EncodeOne(p: Props, d: Dec, s: Sym, end: Coded) returns (x: Coded)
    requires DecOk(p, d) && SymOk(s) && end.code < Spelled(p, d, s).coder.range
    ensures Reads(p, d, x, s, end)
  {
    var c, m, w := CtxOf(p, d), StartOf(d, 0), CodeOf(s, 0);
    CodeIsRead(c, s, 0);
    x := Backward(c, m, w, end);
    RunsBack(c, m, w, end);
    assert At(m, x.code, 0) == StartOf(WithCode(d, x.code), 0) && CtxOf(p, WithCode(d, x.code)) == c;
  }

  /** What the symbol does, with the code 0. */
  function Applied(p: Props, d: Dec, s: Sym, limit: nat): Option<Dec>
    requires DecOk(p, d) && SymOk(s) && |d.out| <= limit
  {
    ApplySym(p, WithCoder(d, WithRange(Spelled(p, d, s), Spelled(p, d, s).coder.range)), s, limit)
  }

  lemma ApplyKeepsCode(p: Props, d: Dec, s: Sym, limit: nat, code: nat)
    requires SymOk(s) && |d.out| <= limit
    ensures ApplySym(p, WithCode(d, code), s, limit) ==
            match ApplySym(p, d, s, limit) { case None => None case Some(x) => Some(WithCode(x, code)) }
  {
  }

  /** A symbol that can be played is applied whole. */
  lemma AppliedPlays(p: Props, d: Dec, s: Sym, limit: nat)
    requires DecOk(p, d) && d.remainLen == 0 && CanPlay(p, Lz(d.out, d.reps), s, limit)
    ensures |d.out| <= limit && Applied(p, d, s, limit).Some?
    ensures var d' := Applied(p, d, s, limit).value;
            Lz(d'.out, d'.reps) == PlaySym(Lz(d.out, d.reps), s) &&
            d'.remainLen == if s.EndMark? then SPEC_LEN_START else 0
  {
  }

  /** The step the decoder makes with it. */
  lemma StepReads(p: Props, d: Dec, x: Coded, s: Sym, end: Coded, limit: nat)
    requires DecOk(p, d) && d.remainLen == 0 && CanPlay(p, Lz(d.out, d.reps), s, limit)
    requires end.code < WORD && Reads(p, d, x, s, end)
    ensures |d.out| < limit && Applied(p, d, s, limit).Some?
    ensures var d1 := WithCode(d, x.code); var d' := WithCode(Applied(p, d, s, limit).value, end.code);
            DecOk(p, d1) && StepSym(p, d1, Symbol(p, d1, x.bytes).value, limit) == Some(d') &&
            DecOk(p, d') && Settled(d', limit)
  {
    var d1 := WithCode(d, x.code);
    var m := Symbol(p, d1, x.bytes).value;
    AppliedPlays(p, d, s, limit);
    if |d.out| == 0 { BadRepCodeIsRep(p, d1, x.bytes); }
    var f := Spelled(p, d, s);
    ApplyKeepsCode(p, WithCoder(d, WithRange(f, f.coder.range)), s, limit, end.code);
    assert WithCoder(d1, m) == WithCode(WithCoder(d, WithRange(f, f.coder.range)), end.code);
    StepKeepsOk(p, d1, x.bytes, limit);
  }

  /** Fed with x, the decoder reads exactly the symbols ss and stops at their end mark. */
  ghost predicate Stores(p: Props, d: Dec, x: Coded, ss: seq<Sym>, limit: nat, fin: FinishMode)
    requires DecOk(p, d) && Settled(d, limit) && SymsOk(ss)
  {
    x.code < d.range && SymbolsOf(p, WithCode(d, x.code), x.bytes, limit, fin) == ss &&
    var o := Decode(p, WithCode(d, x.code), x.bytes, limit, fin);
    o.Stopped? && o.status.FinishedWithMark? && o.used == |x.bytes| && o.dec.out == Play(Lz(d.out, d.reps), ss).out
  }

  lemma {:induction false} PlayableOk(p: Props, z: Lz, ss: seq<Sym>, limit: nat)
    requires Playable(p, z, ss, limit)
    ensures SymsOk(ss) && |z.out| < limit
    decreases |ss|
  {
    if !ss[0].EndMark? {
      PlayableOk(p, PlaySym(z, ss[0]), ss[1..], limit);
      assert ss == [ss[0]] + ss[1..];
    }
    PlayGrows(z, ss[0]);
  }

  lemma PlayGrows(z: Lz, s: Sym)
    requires SymOk(s)
    ensures |z.out| <= |PlaySym(z, s).out|
  {
  }

  lemma {:induction false} EncodeRun(p: Props, d: Dec, ss: seq<Sym>, limit: nat, fin: FinishMode) returns (x: Coded)
    requires DecOk(p, d) && d.remainLen == 0 && Playable(p, Lz(d.out, d.reps), ss, limit)
    ensures SymsOk(ss) && Settled(d, limit) && Stores(p, d, x, ss, limit, fin)
    decreases |ss|
  {
    PlayableOk(p, Lz(d.out, d.reps), ss, limit);
    var d0 := FirstApplied(p, d, ss[0], limit);
    if ss[0].EndMark? {
      x := EncodeEnd(p, d, ss, limit, fin);
    } else {
      var y := EncodeRun(p, d0, ss[1..], limit, fin);
      x := EncodeMore(p, d, ss, d0, y, limit, fin);
    }
  }

  /** The decoder after the first symbol, with the code 0. */
  lemma FirstApplied(p: Props, d: Dec, s: Sym, limit: nat) returns (d0: Dec)
    requires DecOk(p, d) && d.remainLen == 0 && CanPlay(p, Lz(d.out, d.reps), s, limit)
    ensures |d.out| <= limit && Applied(p, d, s, limit) == Some(d0) && DecOk(p, d0) && Settled(d0, limit) &&
            d0.code == 0
    ensures Lz(d0.out, d0.reps) == PlaySym(Lz(d.out, d.reps), s) &&
            d0.remainLen == if s.EndMark? then SPEC_LEN_START else 0
  {
    AppliedPlays(p, d, s, limit);
    d0 := Applied(p, d, s, limit).value;
    var x := EncodeOne(p, d, s, Coded(0, []));
    StepReads(p, d, x, s, Coded(0, []), limit);
  }

  lemma EncodeEnd(p: Props, d: Dec, ss: seq<Sym>, limit: nat, fin: FinishMode) returns (x: Coded)
    requires DecOk(p, d) && d.remainLen == 0 && ss == [EndMark] && CanPlay(p, Lz(d.out, d.reps), EndMark, limit)
    ensures Settled(d, limit) && Stores(p, d, x, ss, limit, fin)
  {
    var d0 := FirstApplied(p, d, EndMark, limit);
    x := EncodeOne(p, d, EndMark, Coded(0, []));
    StepReads(p, d, x, EndMark, Coded(0, []), limit);
    StoresEnd(p, d, x, ss, d0, limit, fin);
  }

  lemma EncodeMore(p: Props, d: Dec, ss: seq<Sym>, d0: Dec, y: Coded, limit: nat, fin: FinishMode) returns (x: Coded)
    requires DecOk(p, d) && d.remainLen == 0 && |ss| > 0 && SymsOk(ss) && CanPlay(p, Lz(d.out, d.reps), ss[0], limit)
    requires |d.out| <= limit && Applied(p, d, ss[0], limit) == Some(d0) &&
             Lz(d0.out, d0.reps) == PlaySym(Lz(d.out, d.reps), ss[0])
    requires DecOk(p, d0) && Settled(d0, limit) && Stores(p, d0, y, ss[1..], limit, fin)
    ensures Settled(d, limit) && Stores(p, d, x, ss, limit, fin)
  {
    AppliedRange(p, d, ss[0], d0, limit);
    x := EncodeOne(p, d, ss[0], y);
    StepReads(p, d, x, ss[0], y, limit);
    StoresMore(p, d, x, ss, d0, y, limit, fin);
  }

  lemma AppliedRange(p: Props, d: Dec, s: Sym, d0: Dec, limit: nat)
    requires DecOk(p, d) && SymOk(s) && |d.out| <= limit && Applied(p, d, s, limit) == Some(d0)
    ensures d0.range == Spelled(p, d, s).coder.range
  {
  }

  /** One symbol of a run, for its symbols and its outcome. */
  lemma RunStep(p: Props, d: Dec, inp: seq<byte>, limit: nat, fin: FinishMode, m: Micro, d': Dec)
    requires DecOk(p, d) && Settled(d, limit) && Going(d, limit, fin) && Symbol(p, d, inp) == Some(m)
    requires StepSym(p, d, m, limit) == Some(d') && DecOk(p, d') && Settled(d', limit)
    ensures m.coder.pos <= |inp|
    ensures SymbolsOf(p, d, inp, limit, fin) == [m.phase.sym] + SymbolsOf(p, d', inp[m.coder.pos..], limit, fin)
    ensures Decode(p, d, inp, limit, fin) == After(m.coder.pos, Decode(p, d', inp[m.coder.pos..], limit, fin))
  {
    GoStep(p, d, inp, limit, fin);
  }

  lemma EndStops(p: Props, d: Dec, inp: seq<byte>, limit: nat, fin: FinishMode)
    requires DecOk(p, d) && Settled(d, limit) && d.remainLen == SPEC_LEN_START && d.code == 0
    ensures SymbolsOf(p, d, inp, limit, fin) == [] && Decode(p, d, inp, limit, fin) == Stopped(FinishedWithMark, d, 0)
  {
  }

  lemma StoresEnd(p: Props, d: Dec, x: Coded, ss: seq<Sym>, d0: Dec, limit: nat, fin: FinishMode)
    requires DecOk(p, d) && d.remainLen == 0 && ss == [EndMark] && |d.out| < limit
    requires Reads(p, d, x, EndMark, Coded(0, []))
    requires d0.remainLen == SPEC_LEN_START && d0.out == d.out && d0.code == 0 && DecOk(p, d0) && Settled(d0, limit)
    requires var d1 := WithCode(d, x.code);
             DecOk(p, d1) && StepSym(p, d1, Symbol(p, d1, x.bytes).value, limit) == Some(d0)
    ensures Stores(p, d, x, ss, limit, fin)
  {
    var d1 := WithCode(d, x.code);
    RunStep(p, d1, x.bytes, limit, fin, Symbol(p, d1, x.bytes).value, d0);
    EndStops(p, d0, x.bytes[|x.bytes|..], limit, fin);
    OnlyEnd(Lz(d.out, d.reps), ss);
  }

  lemma OnlyEnd(z: Lz, ss: seq<Sym>)
    requires ss == [EndMark]
    ensures Play(z, ss) == z && [EndMark] + [] == ss
  {
    PlayCons(z, EndMark, []);
    assert ss == [EndMark] + [];
  }

  lemma StoresMore(p: Props, d: Dec, x: Coded, ss: seq<Sym>, d0: Dec, y: Coded, limit: nat, fin: FinishMode)
    requires DecOk(p, d) && d.remainLen == 0 && |ss| > 0 && SymsOk(ss) && |d.out| < limit && Reads(p, d, x, ss[0], y)
    requires DecOk(p, d0) && Settled(d0, limit) && Stores(p, d0, y, ss[1..], limit, fin)
    requires Lz(d0.out, d0.reps) == PlaySym(Lz(d.out, d.reps), ss[0])
    requires var d1 := WithCode(d, x.code);
             DecOk(p, d1) && StepSym(p, d1, Symbol(p, d1, x.bytes).value, limit) == Some(WithCode(d0, y.code))
    ensures Stores(p, d, x, ss, limit, fin)
  {
    var d1 := WithCode(d, x.code);
    var m := Symbol(p, d1, x.bytes).value;
    RunStep(p, d1, x.bytes, limit, fin, m, WithCode(d0, y.code));
    assert x.bytes[m.coder.pos..] == y.bytes;
    MoreSymbols(Lz(d.out, d.reps), ss);
  }

  lemma MoreSymbols(z: Lz, ss: seq<Sym>)
    requires |ss| > 0 && SymsOk(ss)
    ensures ss == [ss[0]] + ss[1..] && SymsOk(ss[1..]) && Play(z, ss) == Play(PlaySym(z, ss[0]), ss[1..])
  {
    assert ss == [ss[0]] + ss[1..];
  }

  // ---- Whole streams ----

  const EMPTY := Lz([], Reps(1, 1, 1, 1))

  /** The five bytes that start the range coder with this code. */
  function StartBytes(code: nat): seq<byte>
    requires code < WORD
  {
    [0, code / 0x100_0000, code / 0x1_0000 % 256, code / 0x100 % 256, code % 256]
  }

  lemma StartBytesRead(code: nat, bytes: seq<byte>)
    requires code < WORD
    ensures StartCode(StartBytes(code) + bytes) == code && (StartBytes(code) + bytes)[INIT_SIZE..] == bytes
  {
  }

  /** For all properties, every playable list of symbols has an input that one call reads as
      exactly that list, taking all of it and leaving the list's expansion. */
  lemma EveryStreamHasInput(p: Props, ss: seq<Sym>, limit: nat, fin: FinishMode) returns (src: seq<byte>)
    requires PropsOk(p) && Playable(p, EMPTY, ss, limit)
    ensures |src| >= INIT_SIZE && DecOk(p, StartDec(p, src)) && SymsOk(ss)
    ensures SymbolsOf(p, StartDec(p, src), src[INIT_SIZE..], limit, fin) == ss
    ensures var r := Call(p, Starting([]), src, limit, fin);
            r.CallOk? && r.status.FinishedWithMark? && r.consumed == |src| && r.machine.Running? &&
            r.machine.carry == [] &&
            r.machine.dec.out == Play(EMPTY, ss).out
  {
    var d := StartDec(p, [0, 0, 0, 0, 0]);
    StartDecOk(p, [0, 0, 0, 0, 0]);
    var x := EncodeRun(p, d, ss, limit, fin);
    src := StartBytes(x.code) + x.bytes;
    StartBytesRead(x.code, x.bytes);
    StartDecOk(p, src);
    assert StartDec(p, src) == WithCode(d, x.code);
    assert [] + src == src;
  }

  // ---- Any text ----

  function Literals(text: seq<byte>): (ss: seq<Sym>)
    ensures SymsOk(ss)
  {
    if |text| == 0 then [EndMark] else [Lit(text[0])] + Literals(text[1..])
  }

  lemma {:induction false} LiteralsPlay(p: Props, z: Lz, text: seq<byte>, limit: nat)
    requires |z.out| + |text| < limit
    ensures Playable(p, z, Literals(text), limit) && Play(z, Literals(text)).out == z.out + text
    decreases |text|
  {
    var ss := Literals(text);
    if |text| == 0 {
      OnlyEnd(z, ss);
      assert z.out + text == z.out;
    } else {
      LiteralsPlay(p, PlaySym(z, Lit(text[0])), text[1..], limit);
      assert ss[1..] == Literals(text[1..]) && ss[0] == Lit(text[0]);
      MoreSymbols(z, ss);
      OneByte(z.out, text);
    }
  }

  lemma OneByte(out: seq<byte>, text: seq<byte>)
    requires |text| > 0
    ensures out + [text[0]] + text[1..] == out + text
  {
  }

  /** Every text has a stream that decodes to it, whatever the properties. */
  lemma AnyTextComesBack(p: Props, text: seq<byte>, limit: nat, fin: FinishMode) returns (src: seq<byte>)
    requires PropsOk(p) && |text| < limit
    ensures var r := Call(p, Starting([]), src, limit, fin);
            r.CallOk? && r.status.FinishedWithMark? && r.consumed == |src| && r.machine.Running? &&
            r.machine.dec.out == text
  {
    LiteralsPlay(p, EMPTY, text, limit);
    src := EveryStreamHasInput(p, Literals(text), limit, fin);
    assert [] + text == text;
  }
}
