/** CLzmaDec and its decoders, in place on the probability table and the dictionary,
    with the source's branch-free forms. Every method is tied to the reference run. */
module LzmaDec {
  import opened Words
  import opened RangeCoder
  import opened Symbols
  import opened SymbolRun
  import opened InputBound
  import opened Dictionary
  import opened Decoder
  import opened Streaming
  import opened LiteralIndex
  import opened RunGoals
  import opened Expansion

  /** A symbol being decoded: the micro states in `from` are those that lead to `end`. */
  datatype Goal = Goal(c: Ctx, inp: seq<byte>, adapt: bool, end: Option<Micro>, from: iset<Micro>)

  /** Marks the micro states a statement about all of them is wanted for. */
  ghost predicate Named(m: Micro) { true }

  ghost predicate Leads(g: Goal, m: Micro)
  {
    MicroOk(g.c, m) && m.coder.pos <= |g.inp| && RunSymbol(g.c, m, g.inp, g.adapt) == g.end
  }

  ghost predicate GoalOk(g: Goal)
  {
    forall m: Micro {:trigger Named(m)} :: Named(m) ==> (m in g.from <==> Leads(g, m))
  }

  /** The real decoder only starts on a symbol that is complete. */
  ghost predicate Ready(g: Goal, inp: seq<byte>) { GoalOk(g) && g.inp == inp && g.adapt && g.end.Some? }

  /** The goal of decoding from m. */
  ghost function GoalFrom(c: Ctx, m: Micro, inp: seq<byte>, adapt: bool): (g: Goal)
    requires MicroOk(c, m) && m.coder.pos <= |inp|
    ensures GoalOk(g) && m in g.from && g.c == c && g.inp == inp && g.adapt == adapt &&
            g.end == RunSymbol(c, m, inp, adapt)
  {
    var end := RunSymbol(c, m, inp, adapt);
    var g := Goal(c, inp, adapt, end, iset x: Micro | Leads(Goal(c, inp, adapt, end, iset{}), x));
    assert Named(m);
    g
  }

  class CLzmaDec {
    const props: Props
    const probs: array<nat>
    const dic: array<byte>
    const tempBuf: array<byte>
    var dicPos: nat
    var buf: nat             // index of the next byte in the buffer being read
    var range: nat
    var code: nat
    var processedPos: nat
    var checkDicSize: nat
    var rep0: nat
    var rep1: nat
    var rep2: nat
    var rep3: nat
    var state: nat
    var remainLen: nat
    var tempBufSize: nat

    /** LzmaDec_Construct, LzmaDec_AllocateProbs and LzmaDec_Init on a caller's buffer. */
    constructor (p: Props, dest: array<byte>)
      requires PropsOk(p) && dest.Length < WORD
      ensures Valid() && props == p && dic == dest && dicPos == 0 && MachineOf() == Starting([])
      ensures fresh(probs) && fresh(tempBuf)
    {
      props := p;
      probs := new nat[NumProbs(p)];
      dic := dest;
      tempBuf := new byte[REQUIRED_INPUT_MAX];
      dicPos, buf, range, code, processedPos, checkDicSize := 0, 0, 0, 0, 0, 0;
      rep0, rep1, rep2, rep3, state, tempBufSize := 0, 0, 0, 0, 0, 0;
      remainLen := SPEC_LEN_START + 2;
      new;
      assert Carry() == [];
    }

    ghost function Now(ph: Phase): Micro
      reads this, probs
    {
      Micro(ph, probs[..], Coder(range, code, buf))
    }

    /** In phase `ph` of the symbol with goal `g`. */
    ghost predicate At(g: Goal, ph: Phase)
      reads this, probs
    {
      PhaseOk(ph) && Now(ph) in g.from
    }

    // ---- Bits ----

    /** NORMALIZE. */
    method NormalizeCoder(inp: seq<byte>)
      requires range < TOP ==> buf < |inp|
      modifies this`range, this`code, this`buf
      ensures Normalize(old(Coder(range, code, buf)), inp) == Some(Coder(range, code, buf))
    {
      if range < TOP {
        range := range * 256;
        code := code * 256 % WORD + inp[buf];
        buf := buf + 1;
      }
    }

    /** IF_BIT_0, UPDATE_0 and UPDATE_1 on cell k. */
    method GetBit(k: nat, inp: seq<byte>, ghost g: Goal, ghost ph: Phase) returns (bit: bool)
      requires Ready(g, inp) && At(g, ph) && !ph.Done? && Ask(g.c, ph) == Model(k)
      modifies this`range, this`code, this`buf, probs
      ensures At(g, Next(g.c, ph, bit))
    {
      assert Named(Now(ph));
      AskInTable(g.c, ph, probs.Length);
      ghost var before := probs[..];
      NormalizeCoder(inp);
      ghost var m := Now(ph);
      var ttt := probs[k];
      var bound := range / BIT_TOTAL * ttt;
      BitKeeps(m.coder, ttt);
      if code < bound {
        range := bound;
        probs[k] := ttt + (BIT_TOTAL - ttt) / 32;
        bit := false;
      } else {
        range := range - bound;
        code := code - bound;
        probs[k] := ttt - ttt / 32;
        bit := true;
      }
      assert probs[..] == before[k := Adapt(ttt, bit)];
      assert Now(Next(g.c, ph, bit)) == Answer(g.c, m, true);
      assert Named(Now(Next(g.c, ph, bit)));
    }

    /** One direct bit, without a branch: the sign of the difference is spread over a mask. */
    method GetDirectBit(distance: nat, inp: seq<byte>, ghost g: Goal, ghost ph: Phase) returns (d: nat)
      requires Ready(g, inp) && At(g, ph) && ph.Direct? && ph.d == distance
      modifies this`range, this`code, this`buf
      ensures d == 2 * distance || d == 2 * distance + 1
      ensures At(g, Next(g.c, ph, d == 2 * distance + 1))
    {
      assert Named(Now(ph));
      NormalizeCoder(inp);
      ghost var m := Now(ph);
      DirectFits(distance, ph.left);
      AnswerDirect(g.c, m);
      d := ShiftBit(distance);
      assert Named(Now(Next(g.c, ph, d == 2 * distance + 1)));
    }

    method ShiftBit(distance: nat) returns (d: nat)
      requires CoderOk(Coder(range, code, buf)) && distance < 0x1000_0000
      modifies this`range, this`code
      ensures d == 2 * distance + B(RawBit(old(Coder(range, code, buf))))
      ensures Coder(range, code, buf) == AfterRaw(old(Coder(range, code, buf)))
    {
      BranchFree(Coder(range, code, buf), distance);
      range := range / 2;
      code := (code - range) % WORD;
      var t := (0 - code / 0x8000_0000) % WORD;
      d := (distance * 2 + (t + 1) % WORD) % WORD;
      code := (code + And(range, t)) % WORD;
    }

    // ---- Literals ----

    method LiteralPlain(lit: nat, inp: seq<byte>, ghost g: Goal) returns (b: byte)
      requires Ready(g, inp) && At(g, LitPlain(1)) && g.c.lit == lit
      modifies this`range, this`code, this`buf, probs
      ensures At(g, Done(Lit(b)))
    {
      var symbol := 1;
      while symbol < 0x100
        invariant 1 <= symbol < 512
        invariant At(g, if symbol < 256 then LitPlain(symbol) else Done(Lit(symbol - 256)))
      {
        var bit := GetBit(lit + symbol, inp, g, LitPlain(symbol));
        symbol := symbol + symbol + B(bit);
      }
      b := symbol % 256;
    }

    method LiteralMatched(lit: nat, mb: byte, inp: seq<byte>, ghost g: Goal) returns (b: byte)
      requires Ready(g, inp) && At(g, LitMatched(1, mb)) && g.c.lit == lit
      modifies this`range, this`code, this`buf, probs
      ensures At(g, Done(Lit(b)))
    {
      var symbol, offs, matchByte: nat := 1, 0x100, mb;
      while symbol < 0x100
        invariant 1 <= symbol < 512 && (offs == 0 || offs == 0x100)
        invariant At(g, MatchedPhase(symbol, offs, matchByte))
      {
        ghost var ph := MatchedPhase(symbol, offs, matchByte);
        var kept, flipped := MaskOffs(matchByte + matchByte, offs);
        MatchedStep(g.c, symbol, offs, matchByte, kept);
        var bit := GetBit(lit + (kept + offs + symbol), inp, g, ph);
        symbol := symbol + symbol + B(bit);
        matchByte := matchByte + matchByte;
        offs := if bit then kept else flipped;
      }
      b := symbol % 256;
    }

    // ---- Lengths and distances ----

    /** TREE_DECODE over a length band. */
    method LenTreeDecode(probLen: nat, limit: nat, inp: seq<byte>, ghost g: Goal, ghost src: Source, ghost band: nat)
      returns (i: nat)
      requires Ready(g, inp) && At(g, LenTree(src, band, 1))
      requires limit == BandLimit(band) && probLen == LenBase(src) + BandBase(g.c, band)
      modifies this`range, this`code, this`buf, probs
      ensures i < limit && At(g, AfterLen(src, i + BandOffset(band)))
    {
      i := 1;
      while i < limit
        invariant 1 <= i < 2 * limit
        invariant At(g, if i < limit then LenTree(src, band, i) else AfterLen(src, i - limit + BandOffset(band)))
      {
        var bit := GetBit(probLen + i, inp, g, LenTree(src, band, i));
        i := i + i + B(bit);
      }
      i := i - limit;
    }

    method LenDecode(prob: nat, posState: nat, inp: seq<byte>, ghost g: Goal, ghost src: Source) returns (len: nat)
      requires Ready(g, inp) && At(g, LenChoice(src))
      requires prob == LenBase(src) && posState == g.c.posState
      modifies this`range, this`code, this`buf, probs
      ensures len < 272 && At(g, AfterLen(src, len))
    {
      var bit := GetBit(prob, inp, g, LenChoice(src));
      if !bit {
        len := LenTreeDecode(prob + posState, 8, inp, g, src, 0);
      } else {
        bit := GetBit(prob + LEN_CHOICE2, inp, g, LenChoice2(src));
        if !bit {
          len := LenTreeDecode(prob + posState + 8, 8, inp, g, src, 1);
          len := len + 8;
        } else {
          len := LenTreeDecode(prob + LEN_HIGH, 256, inp, g, src, 2);
          len := len + 16;
        }
      }
    }

    method SlotDecode(prob: nat, inp: seq<byte>, ghost g: Goal, ghost len: nat) returns (i: nat)
      requires Ready(g, inp) && At(g, Slot(len, 1)) && prob == POS_SLOT + 64 * SlotGroup(len)
      modifies this`range, this`code, this`buf, probs
      ensures i < 64 && At(g, AfterSlot(len, i))
    {
      i := 1;
      while i < 64
        invariant 1 <= i < 128
        invariant At(g, if i < 64 then Slot(len, i) else AfterSlot(len, i - 64))
      {
        var bit := GetBit(prob + i, inp, g, Slot(len, i));
        i := i + i + B(bit);
      }
      i := i - 64;
    }

    /** REV_BIT_VAR. */
    method SpecBit(ghost base: nat, distance: nat, m: nat, inp: seq<byte>, ghost g: Goal, ghost len: nat, ghost n: nat)
      returns (distance': nat, m': nat)
      requires Ready(g, inp) && n > 0 && base + m <= distance < base + 2 * m &&
               At(g, SpecDist(len, base, distance - base, m, n))
      modifies this`range, this`code, this`buf, probs
      ensures m' == 2 * m && base + m' <= distance' < base + 2 * m'
      ensures At(g,
                 if n > 1 then SpecDist(len, base, distance' - base, m', n - 1) else Done(Match(distance' - m', len)))
    {
      var bit := GetBit(SPEC_POS + distance, inp, g, SpecDist(len, base, distance - base, m, n));
      if !bit {
        distance' := distance + m;
        m' := m + m;
      } else {
        m' := m + m;
        distance' := distance + m';
      }
    }

    /** Reverse tree over SpecPos, one bit of the distance at a time. */
    method SpecDecode(base: nat, numDirectBits: nat, inp: seq<byte>, ghost g: Goal, ghost len: nat)
      returns (distance: nat)
      requires Ready(g, inp) && numDirectBits > 0 && At(g, SpecDist(len, base, 1, 1, numDirectBits))
      modifies this`range, this`code, this`buf, probs
      ensures distance < END_DIST && At(g, Done(Match(distance, len)))
    {
      distance := base + 1;
      var m, n := 1, numDirectBits;
      while n > 0
        invariant base + m <= distance < base + 2 * m
        invariant At(g, if n > 0 then SpecDist(len, base, distance - base, m, n) else Done(Match(distance - m, len)))
      {
        distance, m := SpecBit(base, distance, m, inp, g, len, n);
        n := n - 1;
      }
      distance := distance - m;
    }

    method DirectDecode(start: nat, numDirectBits: nat, inp: seq<byte>, ghost g: Goal, ghost len: nat)
      returns (distance: nat)
      requires Ready(g, inp) && numDirectBits > 0 && At(g, Direct(len, start, numDirectBits))
      modifies this`range, this`code, this`buf
      ensures At(g, AlignBits(len, distance, 1, 1))
    {
      distance := start;
      var n := numDirectBits;
      while n > 0
        invariant At(g, if n > 0 then Direct(len, distance, n) else AlignBits(len, distance, 1, 1))
      {
        distance := GetDirectBit(distance, inp, g, Direct(len, distance, n));
        n := n - 1;
      }
    }

    /** REV_BIT_CONST three times, then REV_BIT_LAST. */
    method AlignDecode(inp: seq<byte>, ghost g: Goal, ghost len: nat, ghost d: nat) returns (i: nat)
      requires Ready(g, inp) && At(g, AlignBits(len, d, 1, 1))
      modifies this`range, this`code, this`buf, probs
      ensures i < 16 && At(g, AfterAlign(len, 16 * d + i))
    {
      i := 1;
      var m := 1;
      while m < 8
        invariant (m == 1 || m == 2 || m == 4 || m == 8) && m <= i < 2 * m
        invariant At(g, AlignBits(len, d, i, m))
      {
        var bit := GetBit(ALIGN + i, inp, g, AlignBits(len, d, i, m));
        i := if bit then i + m * 2 else i + m;
        m := m + m;
      }
      var last := GetBit(ALIGN + i, inp, g, AlignBits(len, d, i, 8));
      if !last {
        i := i - 8;
      }
    }

    method DistanceDecode(len: nat, inp: seq<byte>, ghost g: Goal) returns (distance: nat)
      requires Ready(g, inp) && At(g, Slot(len, 1))
      modifies this`range, this`code, this`buf, probs
      ensures At(g, AfterAlign(len, distance))
    {
      distance := SlotDecode(POS_SLOT + 64 * (if len < 4 then len else 3), inp, g, len);
      if distance >= 4 {
        var posSlot := distance;
        var numDirectBits := distance / 2 - 1;
        distance := 2 + distance % 2;
        if posSlot < 14 {
          distance := SpecDecode(distance * Pow2(numDirectBits), numDirectBits, inp, g, len);
        } else {
          distance := DirectDecode(distance, numDirectBits - 4, inp, g, len);
          var low := AlignDecode(inp, g, len, distance);
          distance := distance * 16 + low;
        }
      }
    }

    // ---- Symbols ----

    /** The bits of a repeat match up to its length: which distance, or a single byte. */
    method RepDecode(posState: nat, inp: seq<byte>, ghost g: Goal) returns (short: bool, which: nat)
      requires Ready(g, inp) && At(g, AskG0) && g.c.state == state && g.c.posState == posState
      modifies this`range, this`code, this`buf, probs
      ensures which < 4 && At(g, if short then Done(ShortRep) else LenChoice(OldDist(which)))
    {
      short, which := false, 0;
      var bit := GetBit(IS_REP_G0 + state, inp, g, AskG0);
      if !bit {
        bit := GetBit(IS_REP0_LONG + posState + state, inp, g, AskLong);
        short := !bit;
      } else {
        bit := GetBit(IS_REP_G1 + state, inp, g, AskG1);
        if !bit {
          which := 1;
        } else {
          bit := GetBit(IS_REP_G2 + state, inp, g, AskG2);
          which := if bit then 3 else 2;
        }
      }
    }

    /** All the bits of one symbol, without the closing NORMALIZE. */
    method DecodeSymbol(posState: nat, lit: nat, matchByte: byte, inp: seq<byte>, ghost g: Goal) returns (s: Sym)
      requires Ready(g, inp) && At(g, AskMatch) && g.c == Ctx(state, posState, lit, matchByte)
      modifies this`range, this`code, this`buf, probs
      ensures SymOk(s) && At(g, Done(s))
    {
      var bit := GetBit(IS_MATCH + posState + state, inp, g, AskMatch);
      if !bit {
        var b;
        if state < 7 {
          b := LiteralPlain(lit, inp, g);
        } else {
          b := LiteralMatched(lit, matchByte, inp, g);
        }
        return Lit(b);
      }
      bit := GetBit(IS_REP + state, inp, g, AskRep);
      if bit {
        var short, which := RepDecode(posState, inp, g);
        if short {
          return ShortRep;
        }
        var len := LenDecode(REP_LEN, posState, inp, g, OldDist(which));
        return Rep(which, len);
      }
      var len := LenDecode(LEN, posState, inp, g, NewDist);
      var distance := DistanceDecode(len, inp, g);
      s := if distance == END_DIST then EndMark else Match(distance, len);
    }

    // ---- The dictionary ----

    ghost function View(pending: nat): Dec
      reads this, probs, dic
      requires dicPos <= dic.Length
    {
      Dec(probs[..], state, Reps(rep0, rep1, rep2, rep3), range, code, dic[..dicPos], pending)
    }

    /** Copy n bytes from rep0 back, one at a time, source and target overlapping. */
    method CopyMatch(n: nat)
      requires dicPos + n <= dic.Length && (n > 0 ==> 1 <= rep0 <= dicPos)
      modifies this`dicPos, dic
      ensures dicPos == old(dicPos) + n && dic[..dicPos] == Expand(old(dic[..dicPos]), rep0, n)
    {
      ghost var target := Expand(dic[..dicPos], rep0, n);
      var i := n;
      while i > 0
        invariant 0 <= i <= n && dicPos == old(dicPos) + n - i && (i > 0 ==> 1 <= rep0 <= dicPos)
        invariant Expand(dic[..dicPos], rep0, i) == target
      {
        ghost var out := dic[..dicPos];
        dic[dicPos] := dic[dicPos - rep0];
        dicPos := dicPos + 1;
        assert dic[..dicPos] == out + [Back(out, rep0)];
        i := i - 1;
      }
    }

    /** The dictionary half of one symbol; `len` is what the limit left over. */
    method ApplySymbol(s: Sym, limit: nat) returns (ok: bool, len: nat)
      requires PropsOk(props) && SymOk(s) && dicPos == processedPos <= limit <= dic.Length
      requires RepsOk(Reps(rep0, rep1, rep2, rep3), dicPos) && (dicPos == 0 ==> !IsRepKind(s)) &&
               (dicPos == limit ==> IsMatchKind(s))
      requires checkDicSize == if dicPos < props.dicSize then 0 else props.dicSize
      modifies this`dicPos, this`processedPos, this`rep0, this`rep1, this`rep2, this`rep3, this`state, dic
      ensures ok == ApplySym(props, old(View(0)), s, limit).Some?
      ensures dicPos <= dic.Length &&
              (ok ==> processedPos == dicPos && Some(View(len)) == ApplySym(props, old(View(0)), s, limit))
    {
      ok, len := true, 0;
      match s
      case Lit(b) => PutByte(b);
      case ShortRep => PutShortRep();
      case Rep(which, n) => ok, len := PutRep(which, n, limit);
      case Match(distance, n) => ok, len := PutMatch(distance, n, limit);
      case EndMark => len := SPEC_LEN_START;
    }

    method PutByte(b: byte)
      requires dicPos == processedPos < dic.Length
      modifies this`dicPos, this`processedPos, this`state, dic
      ensures dicPos == processedPos == old(dicPos) + 1 <= dic.Length
      ensures View(0) == old(View(0)).(out := old(dic[..dicPos]) + [b], state := LitState(old(state)))
    {
      dic[dicPos] := b;
      dicPos := dicPos + 1;
      processedPos := processedPos + 1;
      state := if state < 4 then 0 else if state < 10 then state - 3 else state - 6;
    }

    method PutShortRep()
      requires dicPos == processedPos < dic.Length && 1 <= rep0 <= dicPos
      modifies this`dicPos, this`processedPos, this`state, dic
      ensures dicPos == processedPos == old(dicPos) + 1 <= dic.Length
      ensures View(0) == old(View(0)).(out := Expand(old(dic[..dicPos]), rep0, 1),
                                       state := if old(state) < 7 then 9 else 11)
    {
      CopyMatch(1);
      processedPos := processedPos + 1;
      state := if state < 7 then 9 else 11;
    }

    method PutRep(which: nat, n: nat, limit: nat) returns (ok: bool, len: nat)
      requires which < 4 && n < 272 && 0 < dicPos == processedPos <= limit <= dic.Length
      requires RepsOk(Reps(rep0, rep1, rep2, rep3), dicPos)
      modifies this`dicPos, this`processedPos, this`rep0, this`rep1, this`rep2, this`rep3, this`state, dic
      ensures ok == ApplySym(props, old(View(0)), Rep(which, n), limit).Some?
      ensures dicPos <= dic.Length &&
              (ok ==> processedPos == dicPos && Some(View(len)) == ApplySym(props, old(View(0)), Rep(which, n), limit))
    {
      Rotate(which);
      state := if state < 7 then 8 else 11;
      ok, len := CopyUpTo(n + 2, limit);
    }

    /** Move the chosen distance to the front. */
    method Rotate(which: nat)
      requires which < 4
      modifies this`rep0, this`rep1, this`rep2, this`rep3
      ensures Reps(rep0, rep1, rep2, rep3) == PickRep(old(Reps(rep0, rep1, rep2, rep3)), which)
    {
      if which == 1 {
        rep0, rep1 := rep1, rep0;
      } else if which == 2 {
        rep0, rep1, rep2 := rep2, rep0, rep1;
      } else if which == 3 {
        rep0, rep1, rep2, rep3 := rep3, rep0, rep1, rep2;
      }
    }

    method PutMatch(distance: nat, n: nat, limit: nat) returns (ok: bool, len: nat)
      requires PropsOk(props) && distance < END_DIST && n < 272 && dicPos == processedPos <= limit <= dic.Length
      requires checkDicSize == if dicPos < props.dicSize then 0 else props.dicSize
      modifies this`dicPos, this`processedPos, this`rep0, this`rep1, this`rep2, this`rep3, this`state, dic
      ensures ok == ApplySym(props, old(View(0)), Match(distance, n), limit).Some?
      ensures dicPos <= dic.Length &&
              (ok ==>
               processedPos == dicPos && Some(View(len)) == ApplySym(props, old(View(0)), Match(distance, n), limit))
    {
      rep0, rep1, rep2, rep3 := distance + 1, rep0, rep1, rep2;
      state := if state < 7 then 7 else 10;
      assert View(0) == Turn(old(View(0)), Match(distance, n));
      if distance >= (if checkDicSize == 0 then processedPos else checkDicSize) {
        return false, n;
      }
      ok, len := CopyUpTo(n + 2, limit);
    }

    method CopyUpTo(n: nat, limit: nat) returns (ok: bool, len: nat)
      requires dicPos == processedPos <= limit <= dic.Length && 1 <= rep0 <= dicPos
      modifies this`dicPos, this`processedPos, dic
      ensures ok == (old(dicPos) != limit)
      ensures dicPos <= dic.Length && (ok ==> processedPos == dicPos && View(len) == Copy(old(View(0)), n, limit))
    {
      var rem := limit - dicPos;
      if rem == 0 {
        return false, n;
      }
      var curLen := if rem < n then rem else n;
      processedPos := processedPos + curLen;
      CopyMatch(curLen);
      return true, n - curLen;
    }

    // ---- LZMA_DECODE_REAL ----

    ghost predicate Shape()
      reads this
    {
      PropsOk(props) && dicPos == processedPos <= dic.Length < WORD && probs as object != dic as object
    }

    ghost predicate CheckOk()
      reads this
    {
      checkDicSize == if dicPos < props.dicSize then 0 else props.dicSize
    }

    /** The decoder is `d`, reading on at `pos`, once the pending NORMALIZE is done. */
    ghost predicate Lazy(inp: seq<byte>, d: Dec, pos: nat)
      reads this, probs, dic
      requires dicPos <= dic.Length
    {
      pos <= |inp| && CoderOk(Coder(range, code, buf)) &&
      Normalize(Coder(range, code, buf), inp) == Some(Coder(d.range, d.code, pos)) &&
      d == View(d.remainLen).(range := d.range, code := d.code)
    }

    /** Where the next symbol's cells are: posState, literal coder and match byte. */
    method Context(ghost d: Dec) returns (posState: nat, lit: nat, matchByte: byte)
      requires Shape() && CheckOk() && DecOk(props, d) && d == View(d.remainLen).(range := d.range, code := d.code)
      ensures CtxOf(props, d) == Ctx(state, posState, lit, matchByte)
    {
      AndLow(processedPos, props.pb);
      posState := And(processedPos, Pow2(props.pb) - 1) * 16;
      lit := LITERAL;
      if processedPos != 0 || checkDicSize != 0 {
        MaskedIsPlain(props, processedPos, dic[dicPos - 1]);
        lit := lit + MaskedOffset(props, processedPos, dic[dicPos - 1]);
      }
      matchByte := 0;
      if state >= 7 {
        matchByte := dic[dicPos - rep0];
      }
    }

    /** The bits of the next symbol. */
    method ReadSymbol(inp: seq<byte>, ghost d: Dec, ghost pos: nat) returns (s: Sym)
      requires Shape() && CheckOk() && Lazy(inp, d, pos) && DecOk(props, d) && Symbol(props, d, inp[pos..]).Some?
      modifies this`range, this`code, this`buf, probs
      ensures var m := Symbol(props, d, inp[pos..]).value;
              m.phase.sym == s && SymOk(s) && m.probs == probs[..] && CoderOk(Coder(range, code, buf)) &&
              Normalize(Coder(range, code, buf), inp) == Some(Moved(m.coder, pos)) && pos + m.coder.pos <= |inp|
    {
      var posState, lit, matchByte := Context(d);
      RunAtPos(CtxOf(props, d), Now(AskMatch), Coder(d.range, d.code, 0), inp, pos, true);
      ghost var g := GoalFrom(CtxOf(props, d), Now(AskMatch), inp, true);
      s := DecodeSymbol(posState, lit, matchByte, inp, g);
      assert Named(Now(Done(s)));
    }

    /** One symbol: its bits, then its effect. */
    method DecodeOne(limit: nat, inp: seq<byte>, ghost d: Dec, ghost pos: nat) returns (ok: bool, len: nat)
      requires Shape() && CheckOk() && Lazy(inp, d, pos) && DecOk(props, d) && d.remainLen == 0 &&
               dicPos <= limit <= dic.Length
      requires Symbol(props, d, inp[pos..]).Some?
      requires dicPos == limit ==> IsMatchKind(Symbol(props, d, inp[pos..]).value.phase.sym)
      requires dicPos == 0 ==> d.code < BAD_REP_CODE
      modifies this`range, this`code, this`buf, this`dicPos, this`processedPos, this`rep0, this`rep1, this`rep2,
               this`rep3, this`state
      modifies probs, dic
      ensures dicPos <= dic.Length && (ok ==> Shape())
      ensures var m := Symbol(props, d, inp[pos..]).value; var r := StepSym(props, d, m, limit);
              ok == r.Some? && (ok ==> len == r.value.remainLen && Lazy(inp, r.value, pos + m.coder.pos))
    {
      ghost var m := Symbol(props, d, inp[pos..]).value;
      if dicPos == 0 { BadRepCodeIsRep(props, d, inp[pos..]); }
      StepKeepsOk(props, d, inp[pos..], limit);
      var s := ReadSymbol(inp, d, pos);
      assert View(0) == WithCoder(d, m).(range := range, code := code);
      ApplyIgnoresCoder(props, WithCoder(d, m), s, limit, range, code);
      ok, len := ApplySymbol(s, limit);
    }

    /** Between two symbols of the loop: the next one is complete and there is room for it. */
    ghost predicate CanRead(inp: seq<byte>, d: Dec, pos: nat, limit: nat, g: RunGoal)
      reads this
    {
      g.p == props && pos <= |inp| && CheckOk() && dicPos == |d.out| <= limit <= g.lim &&
      (limit < g.lim ==> dicPos < limit) &&
      Window(d, inp[pos..]) in g.readable && (dicPos == 0 ==> d.code < BAD_REP_CODE) &&
      (checkDicSize == 0 ==> limit <= props.dicSize || limit == dicPos)
    }

    /** One symbol of the run with goal g. */
    method StepPoint(limit: nat, inp: seq<byte>, ghost d: Dec, ghost pos: nat, ghost g: RunGoal, ghost extra: seq<byte>,
                     ghost used: nat, ghost least: nat)
      returns (ok: bool, len: nat, ghost d': Dec, ghost pos': nat)
      requires Shape() && Lazy(inp, d, pos) && CanRead(inp, d, pos, limit, g) && limit <= dic.Length
      requires RunGoalOk(g) && Point(d, inp[pos..] + extra, used) in g.going && AtLeast(g, d, inp[pos..], least)
      modifies this`range, this`code, this`buf, this`dicPos, this`processedPos, this`rep0, this`rep1, this`rep2,
               this`rep3, this`state
      modifies probs, dic
      ensures dicPos <= dic.Length && (!ok ==> g.end == Failed)
      ensures ok ==> Shape() && Lazy(inp, d', pos') && pos + least <= pos' && d'.remainLen == len && Settled(d', limit)
      ensures ok ==> old(dicPos) <= dicPos && (old(dicPos) < dicPos || len == SPEC_LEN_START)
      ensures ok ==> Point(d', inp[pos'..] + extra, used + (pos' - pos)) in g.resting
    {
      d', pos' := d, pos;
      ghost var n, r := NextPoint(g, d, inp[pos..], extra, used, limit, least);
      ok, len := DecodeOne(limit, inp, d, pos);
      if ok {
        d', pos' := r.value, pos + n;
        SliceSlice(inp, pos, n);
      }
    }

    /** One symbol, and whether the loop goes on to another. */
    method LoopStep(limit: nat, bufLimit: nat, inp: seq<byte>, ghost d: Dec, ghost pos: nat, ghost g: RunGoal,
                    ghost extra: seq<byte>, ghost used: nat, ghost least: nat)
      returns (ok: bool, len: nat, more: bool, ghost d': Dec, ghost pos': nat)
      requires Shape() && Lazy(inp, d, pos) && CanRead(inp, d, pos, limit, g) && limit <= dic.Length
      requires bufLimit == 0 || bufLimit + REQUIRED_INPUT_MAX <= |inp|
      requires RunGoalOk(g) && Point(d, inp[pos..] + extra, used) in g.going && AtLeast(g, d, inp[pos..], least)
      modifies this`range, this`code, this`buf, this`dicPos, this`processedPos, this`rep0, this`rep1, this`rep2,
               this`rep3, this`state
      modifies probs, dic
      ensures dicPos <= dic.Length && (!ok ==> g.end == Failed)
      ensures ok ==>
                Shape() && Lazy(inp, d', pos') && pos + least <= pos' && d'.remainLen == len &&
                old(dicPos) <= dicPos <= limit
      ensures ok ==> if more then CanRead(inp, d', pos', limit, g) && old(dicPos) < dicPos
                     else Settled(d', limit) && (old(dicPos) < dicPos || len == SPEC_LEN_START)
      ensures ok ==> Point(d', inp[pos'..] + extra, used + (pos' - pos)) in if more then g.going else g.resting
    {
      more := false;
      ok, len, d', pos' := StepPoint(limit, inp, d, pos, g, extra, used, least);
      if ok {
        more := len < SPEC_LEN_START && dicPos < limit && buf < bufLimit;
        if more { GoOn(g, d', inp[pos'..], extra, used + (pos' - pos)); }
      }
    }

    /** Decode symbols until `limit`, `bufLimit` or the end mark, then NORMALIZE. */
    method DecodeReal(limit: nat, bufLimit: nat, inp: seq<byte>, ghost g: RunGoal, ghost extra: seq<byte>,
                      ghost used: nat, ghost least: nat)
      returns (ok: bool)
      requires Shape() && limit <= dic.Length && CanRead(inp, View(0), buf, limit, g)
      requires bufLimit == 0 || bufLimit + REQUIRED_INPUT_MAX <= |inp|
      requires RunGoalOk(g) && Point(View(0), inp[buf..] + extra, used) in g.going &&
               AtLeast(g, View(0), inp[buf..], least)
      modifies this`range, this`code, this`buf, this`dicPos, this`processedPos, this`rep0, this`rep1, this`rep2,
               this`rep3, this`state, this`remainLen
      modifies probs, dic
      ensures dicPos <= dic.Length && (!ok ==> g.end == Failed)
      ensures ok ==> Shape() && Settled(View(remainLen), limit) && old(buf) + least <= buf <= |inp|
      ensures ok ==> old(dicPos) <= dicPos && (old(dicPos) < dicPos || remainLen == SPEC_LEN_START)
      ensures ok ==> Point(View(remainLen), inp[buf..] + extra, used + (buf - old(buf))) in g.resting
    {
      ghost var d: Dec, pos: nat, u: nat := View(0), buf, used;
      PointRegisters(g, Point(d, inp[pos..] + extra, used));
      var len, more := 0, true;
      ghost var need := least;
      ok := true;
      while more
        invariant Shape() && Lazy(inp, d, pos) && old(buf) <= pos && d.remainLen == len &&
                  old(dicPos) <= dicPos <= limit
        invariant if need > 0 then more && need == least && AtLeast(g, d, inp[pos..], need) else old(buf) + least <= pos
        invariant if more then CanRead(inp, d, pos, limit, g)
                  else Settled(d, limit) && (old(dicPos) < dicPos || len == SPEC_LEN_START)
        invariant u == used + (pos - old(buf)) && Point(d, inp[pos..] + extra, u) in if more then g.going else g.resting
        invariant ok
        decreases limit - dicPos, more
      {
        ghost var pos0 := pos;
        ok, len, more, d, pos := LoopStep(limit, bufLimit, inp, d, pos, g, extra, u, need);
        if !ok {
          return;
        }
        u, need := u + (pos - pos0), 0;
      }
      NormalizeCoder(inp);
      remainLen := len;
    }

    // ---- LzmaDec_WriteRem and LzmaDec_DecodeReal2 ----

    /** Finish a copy that a limit cut short, as far as the new limit allows. */
    method WriteRemaining(limit: nat)
      requires Shape() && CheckOk() && dicPos <= limit <= dic.Length
      requires 0 < remainLen < SPEC_LEN_START ==> 1 <= rep0 <= dicPos
      modifies this`dicPos, this`processedPos, this`checkDicSize, this`remainLen, dic
      ensures Shape() && CheckOk() && View(remainLen) == WriteRem(old(View(remainLen)), limit)
    {
      if remainLen != 0 && remainLen < SPEC_LEN_START {
        var len := remainLen;
        var rem := limit - dicPos;
        if rem < len {
          len := rem;
        }
        if checkDicSize == 0 && props.dicSize - processedPos <= len {
          checkDicSize := props.dicSize;
        }
        processedPos := processedPos + len;
        remainLen := remainLen - len;
        CopyMatch(len);
      }
    }

    /** One round of DecodeReal2: DecodeReal up to the dictionary size, then the rest of
        its last copy. */
    method Real2Round(bufLimit: nat, inp: seq<byte>, limit: nat, ghost g: RunGoal, ghost extra: seq<byte>,
                      ghost used: nat, ghost least: nat)
      returns (ok: bool)
      requires Shape() && CheckOk() && g.p == props && limit == g.lim <= dic.Length && buf <= |inp| && dicPos <= limit
      requires bufLimit == 0 || bufLimit + REQUIRED_INPUT_MAX <= |inp|
      requires RunGoalOk(g) && Point(View(0), inp[buf..] + extra, used) in g.going &&
               Window(View(0), inp[buf..]) in g.readable
      requires AtLeast(g, View(0), inp[buf..], least)
      modifies this`range, this`code, this`buf, this`dicPos, this`processedPos, this`rep0, this`rep1, this`rep2,
               this`rep3, this`state, this`remainLen
      modifies this`checkDicSize, probs, dic
      ensures !ok ==> g.end == Failed
      ensures ok ==> Shape() && CheckOk() && Settled(View(remainLen), limit) && old(buf) + least <= buf <= |inp|
      ensures ok ==> old(dicPos) <= dicPos && (old(dicPos) < dicPos || remainLen == SPEC_LEN_START)
      ensures ok ==> Point(View(remainLen), inp[buf..] + extra, used + (buf - old(buf))) in g.resting
    {
      var limit2 := limit;
      if checkDicSize == 0 {
        var rem := props.dicSize - processedPos;
        if limit - dicPos > rem {
          limit2 := dicPos + rem;
        }
        if processedPos == 0 && code >= BAD_REP_CODE {
          BadRepEnds(g, View(0), inp[buf..], extra, used);
          return false;
        }
      }
      ok := DecodeReal(limit2, bufLimit, inp, g, extra, used, least);
      if ok {
        if checkDicSize == 0 && processedPos >= props.dicSize {
          checkDicSize := props.dicSize;
        }
        ghost var x := Point(View(remainLen), inp[buf..] + extra, used + (buf - old(buf)));
        PointRegisters(g, x);
        RestWritten(g, x);
        WriteRemaining(limit);
      }
    }

    /** Decode while there is room, input and no end mark. */
    method DecodeReal2(bufLimit: nat, inp: seq<byte>, limit: nat, ghost g: RunGoal, ghost extra: seq<byte>,
                       ghost used: nat, ghost least: nat)
      returns (ok: bool)
      requires Shape() && CheckOk() && g.p == props && limit == g.lim <= dic.Length && remainLen == 0 && buf == 0 &&
               dicPos <= limit
      requires bufLimit == 0 || bufLimit + REQUIRED_INPUT_MAX <= |inp|
      requires RunGoalOk(g) && Point(View(0), inp + extra, used) in g.going && Window(View(0), inp) in g.readable &&
               AtLeast(g, View(0), inp, least)
      modifies this`range, this`code, this`buf, this`dicPos, this`processedPos, this`rep0, this`rep1, this`rep2,
               this`rep3, this`state, this`remainLen
      modifies this`checkDicSize, probs, dic
      ensures !ok ==> g.end == Failed
      ensures ok ==> Shape() && CheckOk() && Settled(View(remainLen), limit) && least <= buf <= |inp|
      ensures ok ==> old(dicPos) <= dicPos && (old(dicPos) < dicPos || remainLen == SPEC_LEN_START)
      ensures ok ==> Point(View(remainLen), inp[buf..] + extra, used + buf) in g.resting
    {
      var more := true;
      ghost var need := least;
      ok := true;
      assert inp[0..] == inp;
      while more
        invariant Shape() && CheckOk() && ok && buf <= |inp| && old(dicPos) <= dicPos <= limit &&
                  Settled(View(remainLen), limit)
        invariant if need > 0 then more && need == least && AtLeast(g, View(0), inp[buf..], need) else least <= buf
        invariant if more then remainLen == 0 && Window(View(0), inp[buf..]) in g.readable
                  else old(dicPos) < dicPos || remainLen == SPEC_LEN_START
        invariant Point(View(remainLen), inp[buf..] + extra, used + buf) in if more then g.going else g.resting
        decreases limit - dicPos, more
      {
        ghost var u := used + buf;
        ok := Real2Round(bufLimit, inp, limit, g, extra, u, need);
        need := 0;
        if !ok {
          return;
        }
        more := dicPos < limit && buf < bufLimit && remainLen < SPEC_LEN_START;
        if more { GoOn(g, View(remainLen), inp[buf..], extra, used + buf); }
      }
    }

    // ---- LzmaDec_TryDummy ----

    /** In phase `ph` of the symbol with goal `g`, with the coder in locals. */
    ghost predicate Trying(g: Goal, ph: Phase, k: Coder, inp: seq<byte>)
      reads probs
    {
      GoalOk(g) && g.inp == inp && !g.adapt && PhaseOk(ph) && Micro(ph, probs[..], k) in g.from
    }

    /** IF_BIT_0_CHECK: as GetBit, but it may run out of input and leaves the cell alone. */
    method CheckBit(cell: nat, k: Coder, inp: seq<byte>, ghost g: Goal, ghost ph: Phase)
      returns (ok: bool, bit: bool, k': Coder)
      requires Trying(g, ph, k, inp) && !ph.Done? && Ask(g.c, ph) == Model(cell)
      ensures if ok then Trying(g, Next(g.c, ph, bit), k', inp) else g.end == None
    {
      assert Named(Micro(ph, probs[..], k));
      AskInTable(g.c, ph, probs.Length);
      ok, k' := NormalizeCheck(k, inp);
      bit := false;
      if ok {
        ghost var m := Micro(ph, probs[..], k');
        var ttt := probs[cell];
        BitKeeps(k', ttt);
        var bound := k'.range / BIT_TOTAL * ttt;
        if k'.code < bound {
          k' := k'.(range := bound);
        } else {
          k' := k'.(range := k'.range - bound, code := k'.code - bound);
          bit := true;
        }
        assert Micro(Next(g.c, ph, bit), probs[..], k') == Answer(g.c, m, false);
        assert Named(Micro(Next(g.c, ph, bit), probs[..], k'));
      }
    }

    method CheckDirectBit(k: Coder, inp: seq<byte>, ghost g: Goal, ghost ph: Phase)
      returns (ok: bool, k': Coder, ghost bit: bool)
      requires Trying(g, ph, k, inp) && ph.Direct?
      ensures if ok then Trying(g, Next(g.c, ph, bit), k', inp) else g.end == None
    {
      assert Named(Micro(ph, probs[..], k));
      ok, k' := NormalizeCheck(k, inp);
      bit := false;
      if ok {
        ghost var m := Micro(ph, probs[..], k');
        DummyBranchFree(k');
        bit := RawBit(k');
        var half := k'.range / 2;
        k' := Coder(half, k'.code - And(half, ((k'.code - half) % WORD / 0x8000_0000 - 1) % WORD), k'.pos);
        assert Micro(Next(g.c, ph, bit), probs[..], k') == Answer(g.c, m, false);
        assert Named(Micro(Next(g.c, ph, bit), probs[..], k'));
      }
    }

    method CheckLiteralPlain(lit: nat, start: Coder, inp: seq<byte>, ghost g: Goal)
      returns (ok: bool, k: Coder, ghost b: byte)
      requires Trying(g, LitPlain(1), start, inp) && g.c.lit == lit
      ensures if ok then Trying(g, Done(Lit(b)), k, inp) else g.end == None
    {
      var symbol := 1;
      var bit;
      ok, k, b := true, start, 0;
      while symbol < 0x100
        invariant 1 <= symbol < 512
        invariant Trying(g, if symbol < 256 then LitPlain(symbol) else Done(Lit(symbol - 256)), k, inp)
      {
        ok, bit, k := CheckBit(lit + symbol, k, inp, g, LitPlain(symbol));
        if !ok {
          return;
        }
        symbol := symbol + symbol + B(bit);
      }
      ok, b := true, symbol - 256;
    }

    method CheckLiteralMatched(lit: nat, mb: byte, start: Coder, inp: seq<byte>, ghost g: Goal)
      returns (ok: bool, k: Coder, ghost b: byte)
      requires Trying(g, LitMatched(1, mb), start, inp) && g.c.lit == lit
      ensures if ok then Trying(g, Done(Lit(b)), k, inp) else g.end == None
    {
      var symbol, offs, matchByte: nat := 1, 0x100, mb;
      var bit;
      ok, k, b := true, start, 0;
      while symbol < 0x100
        invariant 1 <= symbol < 512 && (offs == 0 || offs == 0x100)
        invariant Trying(g, MatchedPhase(symbol, offs, matchByte), k, inp)
      {
        ghost var ph := MatchedPhase(symbol, offs, matchByte);
        var kept, flipped := MaskOffs(matchByte + matchByte, offs);
        MatchedStep(g.c, symbol, offs, matchByte, kept);
        ok, bit, k := CheckBit(lit + (kept + offs + symbol), k, inp, g, ph);
        if !ok {
          return;
        }
        symbol := symbol + symbol + B(bit);
        matchByte := matchByte + matchByte;
        offs := if bit then kept else flipped;
      }
      ok, b := true, symbol - 256;
    }

    /** TREE_DECODE_CHECK over a length band. */
    method CheckLenTree(probLen: nat, limit: nat, start: Coder, inp: seq<byte>, ghost g: Goal, ghost src: Source,
                        ghost band: nat)
      returns (ok: bool, k: Coder, i: nat)
      requires Trying(g, LenTree(src, band, 1), start, inp) && limit == BandLimit(band) &&
               probLen == LenBase(src) + BandBase(g.c, band)
      ensures if ok then i < limit && Trying(g, AfterLen(src, i + BandOffset(band)), k, inp) else g.end == None
    {
      var bit;
      ok, k, i := true, start, 1;
      while i < limit
        invariant 1 <= i < 2 * limit
        invariant Trying(g, if i < limit then LenTree(src, band, i) else AfterLen(src, i - limit + BandOffset(band)),
                         k, inp)
      {
        ok, bit, k := CheckBit(probLen + i, k, inp, g, LenTree(src, band, i));
        if !ok {
          return;
        }
        i := i + i + B(bit);
      }
      ok, i := true, i - limit;
    }

    method CheckLen(prob: nat, posState: nat, start: Coder, inp: seq<byte>, ghost g: Goal, ghost src: Source)
      returns (ok: bool, k: Coder, len: nat)
      requires Trying(g, LenChoice(src), start, inp) && prob == LenBase(src) && posState == g.c.posState
      ensures if ok then len < 272 && Trying(g, AfterLen(src, len), k, inp) else g.end == None
    {
      var bit;
      len := 0;
      ok, bit, k := CheckBit(prob, start, inp, g, LenChoice(src));
      if ok {
        if !bit {
          ok, k, len := CheckLenTree(prob + posState, 8, k, inp, g, src, 0);
        } else {
          ok, k, len := CheckLongLen(prob, posState, k, inp, g, src);
        }
      }
    }

    method CheckLongLen(prob: nat, posState: nat, start: Coder, inp: seq<byte>, ghost g: Goal, ghost src: Source)
      returns (ok: bool, k: Coder, len: nat)
      requires Trying(g, LenChoice2(src), start, inp) && prob == LenBase(src) && posState == g.c.posState
      ensures if ok then len < 272 && Trying(g, AfterLen(src, len), k, inp) else g.end == None
    {
      var bit;
      len := 0;
      ok, bit, k := CheckBit(prob + LEN_CHOICE2, start, inp, g, LenChoice2(src));
      if ok {
        if !bit {
          ok, k, len := CheckLenTree(prob + posState + 8, 8, k, inp, g, src, 1);
          len := len + 8;
        } else {
          ok, k, len := CheckLenTree(prob + LEN_HIGH, 256, k, inp, g, src, 2);
          len := len + 16;
        }
      }
    }

    method CheckSlot(prob: nat, start: Coder, inp: seq<byte>, ghost g: Goal, ghost len: nat)
      returns (ok: bool, k: Coder, i: nat)
      requires Trying(g, Slot(len, 1), start, inp) && prob == POS_SLOT + 64 * SlotGroup(len)
      ensures if ok then i < 64 && Trying(g, AfterSlot(len, i), k, inp) else g.end == None
    {
      var bit;
      ok, k, i := true, start, 1;
      while i < 64
        invariant 1 <= i < 128
        invariant Trying(g, if i < 64 then Slot(len, i) else AfterSlot(len, i - 64), k, inp)
      {
        ok, bit, k := CheckBit(prob + i, k, inp, g, Slot(len, i));
        if !ok {
          return;
        }
        i := i + i + B(bit);
      }
      ok, i := true, i - 64;
    }

    /** REV_BIT_CHECK over SpecPos. */
    method CheckSpec(prob: nat, numDirectBits: nat, start: Coder, inp: seq<byte>, ghost g: Goal, ghost len: nat)
      returns (ok: bool, k: Coder, ghost s: Sym)
      requires numDirectBits > 0 && Trying(g, SpecDist(len, prob, 1, 1, numDirectBits), start, inp)
      ensures if ok then IsMatchKind(s) && Trying(g, Done(s), k, inp) else g.end == None
    {
      var i, m, n := 1, 1, numDirectBits;
      var bit;
      ok, k, s := true, start, EndMark;
      while n > 0
        invariant m <= i < 2 * m
        invariant Trying(g, if n > 0 then SpecDist(len, prob, i, m, n) else Done(Match(prob + i - m, len)), k, inp)
      {
        ok, bit, k := CheckBit(SPEC_POS + prob + i, k, inp, g, SpecDist(len, prob, i, m, n));
        if !ok {
          return;
        }
        if !bit {
          i := i + m;
          m := m + m;
        } else {
          m := m + m;
          i := i + m;
        }
        n := n - 1;
      }
      ok, s := true, Match(prob + i - m, len);
    }

    method CheckDirect(numDirectBits: nat, start: Coder, inp: seq<byte>, ghost g: Goal, ghost len: nat, ghost d0: nat)
      returns (ok: bool, k: Coder, ghost d: nat)
      requires numDirectBits > 0 && Trying(g, Direct(len, d0, numDirectBits), start, inp)
      ensures if ok then Trying(g, AlignBits(len, d, 1, 1), k, inp) else g.end == None
    {
      var n := numDirectBits;
      ghost var bit;
      ok, k, d := true, start, d0;
      while n > 0
        invariant Trying(g, if n > 0 then Direct(len, d, n) else AlignBits(len, d, 1, 1), k, inp)
      {
        ok, k, bit := CheckDirectBit(k, inp, g, Direct(len, d, n));
        if !ok {
          return;
        }
        d := 2 * d + B(bit);
        n := n - 1;
      }
      ok := true;
    }

    /** REV_BIT_CHECK over Align. */
    method CheckAlign(start: Coder, inp: seq<byte>, ghost g: Goal, ghost len: nat, ghost d: nat)
      returns (ok: bool, k: Coder, ghost s: Sym)
      requires Trying(g, AlignBits(len, d, 1, 1), start, inp)
      ensures if ok then IsMatchKind(s) && Trying(g, Done(s), k, inp) else g.end == None
    {
      var i, m := 1, 1;
      var bit;
      ok, k, s := true, start, EndMark;
      while m < 16
        invariant (m == 1 || m == 2 || m == 4 || m == 8 || m == 16) && m <= i < 2 * m
        invariant Trying(g, if m < 16 then AlignBits(len, d, i, m) else AfterAlign(len, 16 * d + (i - 16)), k, inp)
      {
        ok, bit, k := CheckBit(ALIGN + i, k, inp, g, AlignBits(len, d, i, m));
        if !ok {
          return;
        }
        i := if bit then i + (m + m) else i + m;
        m := m + m;
      }
      ok, s := true, AfterAlign(len, 16 * d + (i - 16)).sym;
    }

    method CheckDistance(len: nat, start: Coder, inp: seq<byte>, ghost g: Goal)
      returns (ok: bool, k: Coder, ghost s: Sym)
      requires Trying(g, Slot(len, 1), start, inp)
      ensures if ok then IsMatchKind(s) && Trying(g, Done(s), k, inp) else g.end == None
    {
      var posSlot;
      s := EndMark;
      ok, k, posSlot := CheckSlot(POS_SLOT + 64 * (if len < 3 then len else 3), start, inp, g, len);
      if !ok {
        return;
      }
      s := Match(posSlot, len);
      if posSlot >= 4 {
        var numDirectBits := posSlot / 2 - 1;
        if posSlot < 14 {
          ok, k, s := CheckSpec((2 + posSlot % 2) * Pow2(numDirectBits), numDirectBits, k, inp, g, len);
        } else {
          ghost var d;
          ok, k, d := CheckDirect(numDirectBits - 4, k, inp, g, len, 2 + posSlot % 2);
          if ok {
            ok, k, s := CheckAlign(k, inp, g, len, d);
          }
        }
      }
    }

    method CheckRep(posState: nat, start: Coder, inp: seq<byte>, ghost g: Goal)
      returns (ok: bool, k: Coder, short: bool, ghost which: nat)
      requires Trying(g, AskG0, start, inp) && g.c.state == state && g.c.posState == posState
      ensures if ok then which < 4 && Trying(g, if short then Done(ShortRep) else LenChoice(OldDist(which)), k, inp)
              else g.end == None
    {
      var bit;
      short, which := false, 0;
      ok, bit, k := CheckBit(IS_REP_G0 + state, start, inp, g, AskG0);
      if !ok {
        return;
      }
      if !bit {
        ok, bit, k := CheckBit(IS_REP0_LONG + posState + state, k, inp, g, AskLong);
        short := !bit;
      } else {
        ok, bit, k := CheckBit(IS_REP_G1 + state, k, inp, g, AskG1);
        which := 1;
        if ok && bit {
          ok, bit, k := CheckBit(IS_REP_G2 + state, k, inp, g, AskG2);
          which := if bit then 3 else 2;
        }
      }
    }

    method CheckLiteral(lit: nat, matchByte: byte, start: Coder, inp: seq<byte>, ghost g: Goal)
      returns (ok: bool, k: Coder, ghost b: byte)
      requires g.c.lit == lit && g.c.state == state &&
               Trying(g, if state < 7 then LitPlain(1) else LitMatched(1, matchByte), start, inp)
      ensures if ok then Trying(g, Done(Lit(b)), k, inp) else g.end == None
    {
      if state < 7 {
        ok, k, b := CheckLiteralPlain(lit, start, inp, g);
      } else {
        ok, k, b := CheckLiteralMatched(lit, matchByte, start, inp, g);
      }
    }

    /** The bits of one symbol, reading the table as it is. */
    method CheckSymbol(posState: nat, lit: nat, matchByte: byte, start: Coder, inp: seq<byte>, ghost g: Goal)
      returns (res: Dummy, k: Coder, ghost s: Sym)
      requires Trying(g, AskMatch, start, inp) && g.c == Ctx(state, posState, lit, matchByte)
      ensures if res.DummyError? then g.end == None else Trying(g, Done(s), k, inp) && res == DummyKind(s)
    {
      var ok, bit;
      res, s := DummyError, EndMark;
      ok, bit, k := CheckBit(IS_MATCH + posState + state, start, inp, g, AskMatch);
      if !ok {
        return;
      }
      if !bit {
        ghost var b;
        ok, k, b := CheckLiteral(lit, matchByte, k, inp, g);
        return if ok then DummyLit else DummyError, k, Lit(b);
      }
      ok, bit, k := CheckBit(IS_REP + state, k, inp, g, AskRep);
      if !ok {
        return;
      }
      var len;
      if bit {
        var short;
        ghost var which;
        ok, k, short, which := CheckRep(posState, k, inp, g);
        s := ShortRep;
        if ok && !short {
          ok, k, len := CheckLen(REP_LEN, posState, k, inp, g, OldDist(which));
          s := Rep(which, len);
        }
        return if ok then DummyRep else DummyError, k, s;
      }
      ok, k, len := CheckLen(LEN, posState, k, inp, g, NewDist);
      if ok {
        ok, k, s := CheckDistance(len, k, inp, g);
        res := if ok then DummyMatch else DummyError;
      }
    }

    /** Would one more symbol fit in `inp`, which kind is it, and where does it end? Nothing changes. */
    method TryDummy(inp: seq<byte>) returns (res: Dummy, end: nat)
      requires Shape() && CheckOk() && DecOk(props, View(0))
      ensures res == DummyOf(Symbol(props, View(0), inp))
      ensures !res.DummyError? ==> end == Symbol(props, View(0), inp).value.coder.pos
    {
      var posState, lit, matchByte := DummyContext();
      ghost var c := CtxOf(props, View(0));
      ghost var m := Micro(AskMatch, probs[..], Coder(range, code, 0));
      ghost var g := GoalFrom(c, m, inp, false);
      DummyAgrees(c, m, m, inp);
      var k;
      ghost var s;
      end := 0;
      res, k, s := CheckSymbol(posState, lit, matchByte, Coder(range, code, 0), inp, g);
      if !res.DummyError? {
        assert Named(Micro(Done(s), probs[..], k));
        var ok, k' := NormalizeCheck(k, inp);
        end := k'.pos;
        if !ok {
          res := DummyError;
        }
      }
    }

    /** As Context, with the plain form of the literal index. */
    method DummyContext() returns (posState: nat, lit: nat, matchByte: byte)
      requires Shape() && CheckOk() && DecOk(props, View(0))
      ensures CtxOf(props, View(0)) == Ctx(state, posState, lit, matchByte)
    {
      AndLow(processedPos, props.pb);
      posState := And(processedPos, Pow2(props.pb) - 1) * 16;
      lit := LITERAL;
      if checkDicSize != 0 || processedPos != 0 {
        PlainIsGroup(props, processedPos, dic[dicPos - 1]);
        lit := lit + PlainOffset(props, processedPos, dic[dicPos - 1]);
      }
      matchByte := 0;
      if state >= 7 {
        matchByte := dic[dicPos - rep0];
      }
    }

    // ---- LzmaDec_DecodeToDic ----

    ghost predicate Buffers()
      reads this
    {
      Shape() && CheckOk() && tempBuf.Length == REQUIRED_INPUT_MAX && tempBufSize <= REQUIRED_INPUT_MAX &&
      dic != tempBuf && probs as object != tempBuf as object
    }

    ghost function Carry(): seq<byte>
      reads this, tempBuf
      requires tempBufSize <= tempBuf.Length
    {
      tempBuf[..tempBufSize]
    }

    /** TryDummy's verdict in terms of the run. */
    method Probe(inp: seq<byte>, ghost g: RunGoal, ghost extra: seq<byte>, ghost used: nat) returns (res: Dummy)
      requires Shape() && CheckOk() && g.p == props && RunGoalOk(g) && Point(View(0), inp + extra, used) in g.going
      ensures if res.DummyError? then Window(View(0), inp) in g.incomplete && |inp| < REQUIRED_INPUT_MAX
              else if dicPos < g.lim || res.DummyMatch? then Window(View(0), inp) in g.readable
              else g.end == Failed
    {
      PointFacts(g, Point(View(0), inp + extra, used));
      var end;
      res, end := TryDummy(inp);
      assert Seen(Window(View(0), inp));
      if res.DummyError? {
        IncompleteIsShort(props, View(0), inp);
      } else if dicPos == g.lim && !res.DummyMatch? {
        WrongKindEnds(g, View(0), inp, extra, used);
      }
    }

    /** No bytes held back: decode from the caller's buffer, or hold back the rest of it. */
    method FromSource(checkEndMarkNow: bool, dicLimit: nat, rest: seq<byte>, ghost g: RunGoal, ghost used: nat)
      returns (flow: Flow)
      requires Buffers() && g.p == props && dicPos <= dicLimit == g.lim <= dic.Length && remainLen == 0 &&
               tempBufSize == 0
      requires checkEndMarkNow == (dicPos == dicLimit) && RunGoalOk(g) && Point(View(0), rest, used) in g.going
      modifies this, probs, dic, tempBuf
      ensures flow.Fail? || (Buffers() && (flow.Continue? || flow.NeedInput?))
      ensures flow.Fail? ==> g.end == Failed
      ensures flow.NeedInput? ==> g.end == Stopped(NeedsMoreInput, View(remainLen), used) && Carry() == rest
      ensures flow.Continue? ==> tempBufSize == 0 && Settled(View(remainLen), dicLimit) && buf <= |rest|
      ensures flow.Continue? ==> old(dicPos) <= dicPos && (old(dicPos) < dicPos || remainLen == SPEC_LEN_START)
      ensures flow.Continue? ==> Point(View(remainLen), rest[buf..], used + buf) in g.resting
    {
      var bufLimit := 0;
      assert rest + [] == rest;
      if |rest| < REQUIRED_INPUT_MAX || checkEndMarkNow {
        var dummyRes := Probe(rest, g, [], used);
        if dummyRes.DummyError? {
          NeedsEnds(g, View(0), rest, used);
          forall i | 0 <= i < |rest| {
            tempBuf[i] := rest[i];
          }
          tempBufSize := |rest|;
          return NeedInput;
        }
        if checkEndMarkNow && !dummyRes.DummyMatch? {
          return Fail;
        }
      } else {
        bufLimit := |rest| - REQUIRED_INPUT_MAX;
        RestOfWindow(g, View(0), rest, [], used);
      }
      buf := 0;
      var ok := DecodeReal2(bufLimit, rest, dicLimit, g, [], used, 0);
      if !ok {
        return Fail;
      }
      assert rest[buf..] + [] == rest[buf..];
      return Continue;
    }

    /** Bytes held back: complete them from the caller's buffer and decode one symbol. */
    method FromCarry(checkEndMarkNow: bool, dicLimit: nat, src: seq<byte>, ghost g: RunGoal, ghost used: nat)
      returns (flow: Flow, lookAhead: nat)
      requires Buffers() && g.p == props && dicPos <= dicLimit == g.lim <= dic.Length && remainLen == 0 &&
               tempBufSize > 0
      requires checkEndMarkNow == (dicPos == dicLimit) && RunGoalOk(g) && Point(View(0), Carry() + src, used) in g.going
      requires Window(View(0), Carry()) in g.incomplete
      modifies this, probs, dic, tempBuf
      ensures flow.Fail? || (Buffers() && (flow.Continue? || flow.NeedInput?))
      ensures flow.Fail? ==> g.end == Failed
      ensures flow.NeedInput? ==>
                g.end == Stopped(NeedsMoreInput, View(remainLen), used) && Carry() == old(Carry()) + src &&
                lookAhead == |src|
      ensures flow.Continue? ==> tempBufSize == 0 && Settled(View(remainLen), dicLimit) && lookAhead <= |src|
      ensures flow.Continue? ==> old(dicPos) <= dicPos && (old(dicPos) < dicPos || remainLen == SPEC_LEN_START)
      ensures flow.Continue? ==>
                Point(View(remainLen), src[lookAhead..], used + old(tempBufSize) + lookAhead) in g.resting
    {
      ghost var carry := Carry();
      lookAhead := FillCarry(src);
      var rem := tempBufSize;
      var inp := tempBuf[..rem];
      ghost var extra := src[lookAhead..];
      assert inp + extra == carry + src;
      if rem < REQUIRED_INPUT_MAX || checkEndMarkNow {
        var dummyRes := Probe(inp, g, extra, used);
        if dummyRes.DummyError? {
          assert extra == [] && inp + extra == inp;
          NeedsEnds(g, View(0), inp, used);
          return NeedInput, lookAhead;
        }
        if checkEndMarkNow && !dummyRes.DummyMatch? {
          return Fail, lookAhead;
        }
      } else {
        RestOfWindow(g, View(0), inp, extra, used);
      }
      assert inp[..|carry|] == carry && inp[|carry|..] == src[..lookAhead];
      flow, lookAhead := FinishCarry(dicLimit, inp, lookAhead, src, g, used, |carry|);
    }

    /** Decode the completed symbol from the carry buffer and work out what of the caller's
        buffer it took; the carry itself is always used up. */
    method FinishCarry(dicLimit: nat, inp: seq<byte>, taken: nat, src: seq<byte>, ghost g: RunGoal, ghost used: nat,
                       ghost carried: nat)
      returns (flow: Flow, lookAhead: nat)
      requires Buffers() && g.p == props && dicPos <= dicLimit == g.lim <= dic.Length && remainLen == 0
      requires taken <= |src| && carried + taken == |inp| && inp[carried..] == src[..taken]
      requires RunGoalOk(g) && Point(View(0), inp + src[taken..], used) in g.going && Window(View(0), inp) in g.readable
      requires AtLeast(g, View(0), inp, carried)
      modifies this, probs, dic
      ensures flow.Fail? || (Buffers() && flow.Continue?)
      ensures flow.Fail? ==> g.end == Failed
      ensures flow.Continue? ==> tempBufSize == 0 && Settled(View(remainLen), dicLimit) && lookAhead <= |src|
      ensures flow.Continue? ==> old(dicPos) <= dicPos && (old(dicPos) < dicPos || remainLen == SPEC_LEN_START)
      ensures flow.Continue? ==> Point(View(remainLen), src[lookAhead..], used + carried + lookAhead) in g.resting
    {
      lookAhead := taken;
      buf := 0;
      var ok := DecodeReal2(0, inp, dicLimit, g, src[taken..], used, carried);
      if !ok {
        return Fail, lookAhead;
      }
      var rem, kkk := |inp|, buf;
      if rem < kkk {
        return Internal, lookAhead;
      }
      rem := rem - kkk;
      if lookAhead < rem {
        return Internal, lookAhead;
      }
      RestOfSource(inp, src, taken, carried, kkk);
      lookAhead := lookAhead - rem;
      tempBufSize := 0;
      return Continue, lookAhead;
    }

    method FillCarry(src: seq<byte>) returns (lookAhead: nat)
      requires tempBuf.Length == REQUIRED_INPUT_MAX && tempBufSize <= REQUIRED_INPUT_MAX
      modifies this`tempBufSize, tempBuf
      ensures lookAhead <= |src| && tempBufSize <= REQUIRED_INPUT_MAX && Carry() == old(Carry()) + src[..lookAhead]
      ensures tempBufSize == REQUIRED_INPUT_MAX || lookAhead == |src|
    {
      var rem := tempBufSize;
      lookAhead := 0;
      while rem < REQUIRED_INPUT_MAX && lookAhead < |src|
        invariant lookAhead <= |src| && rem <= REQUIRED_INPUT_MAX && tempBuf[..rem] == old(Carry()) + src[..lookAhead]
      {
        tempBuf[rem] := src[lookAhead];
        assert tempBuf[..rem + 1] == tempBuf[..rem] + [src[lookAhead]];
        assert src[..lookAhead + 1] == src[..lookAhead] + [src[lookAhead]];
        rem := rem + 1;
        lookAhead := lookAhead + 1;
      }
      tempBufSize := rem;
    }

    /** One turn of the main loop. */
    method OneTurn(dicLimit: nat, rest: seq<byte>, fin: FinishMode, ghost g: RunGoal, ghost used: nat)
      returns (flow: Flow, n: nat, status: Status)
      requires Buffers() && g.p == props && dicPos <= dicLimit == g.lim <= dic.Length && g.fin == fin
      requires remainLen != SPEC_LEN_START && Settled(View(remainLen), dicLimit)
      requires RunGoalOk(g) && Point(View(remainLen), Carry() + rest, used) in g.resting
      requires tempBufSize > 0 ==> Window(View(remainLen), Carry()) in g.incomplete
      modifies this, probs, dic, tempBuf
      ensures (Buffers() || flow.Fail?) && !flow.Internal?
      ensures flow.Fail? ==> g.end == Failed
      ensures flow.Stop? ==>
                g.end == Stopped(status, View(remainLen), used) && !status.NeedsMoreInput? && Carry() == old(Carry())
      ensures flow.NeedInput? ==>
                g.end == Stopped(NeedsMoreInput, View(remainLen), used) && status == NeedsMoreInput &&
                Carry() == old(Carry()) + rest
      ensures flow.Continue? ==> tempBufSize == 0 && Settled(View(remainLen), dicLimit) && n <= |rest|
      ensures flow.Continue? ==> old(dicPos) <= dicPos && (old(dicPos) < dicPos || remainLen == SPEC_LEN_START)
      ensures flow.Continue? ==> Point(View(remainLen), rest[n..], used + old(tempBufSize) + n) in g.resting
    {
      n, status := 0, NotSpecified;
      ghost var x := Point(View(remainLen), Carry() + rest, used);
      PointRegisters(g, x);
      var checkEndMarkNow := false;
      if dicPos >= dicLimit {
        if !Going(View(remainLen), dicLimit, fin) { StopEnds(g, x); }
        if remainLen == 0 && code == 0 {
          return Stop, 0, MaybeFinishedWithoutMark;
        }
        if fin == FinishAny {
          return Stop, 0, NotFinished;
        }
        if remainLen != 0 {
          return Fail, 0, NotFinished;
        }
        checkEndMarkNow := true;
      }
      RestToGo(g, x);
      if tempBufSize == 0 {
        assert Carry() + rest == rest;
        flow := FromSource(checkEndMarkNow, dicLimit, rest, g, used);
        n := buf;
      } else {
        flow, n := FromCarry(checkEndMarkNow, dicLimit, rest, g, used);
      }
      if flow.NeedInput? {
        status := NeedsMoreInput;
      }
    }

    /** The main loop, on the bytes held back and src[from..]. */
    method MainLoop(dicLimit: nat, src: seq<byte>, from: nat, fin: FinishMode, ghost g: RunGoal)
      returns (res: SRes, status: Status, srcLen: nat)
      requires Buffers() && g.p == props && dicPos <= dicLimit == g.lim <= dic.Length && g.fin == fin && from <= |src|
      requires Settled(View(remainLen), dicLimit)
      requires RunGoalOk(g) && Point(View(remainLen), Carry() + src[from..], 0) in g.resting
      requires tempBufSize > 0 ==> Window(View(remainLen), Carry()) in g.incomplete
      modifies this, probs, dic, tempBuf
      ensures res == if g.end.Failed? then SzErrorData else SzOk
      ensures res.SzOk? ==> Buffers() && g.end == Stopped(status, View(remainLen), g.end.used)
      ensures res.SzOk? ==> Left(g.end, old(Carry()) + src[from..], |old(Carry())|, from, Carry(), srcLen)
    {
      ghost var total, carried: nat, used: nat := Carry() + src[from..], tempBufSize, 0;
      TracksStart(Carry(), src, from);
      srcLen, status, res := from, NotSpecified, SzOk;
      while remainLen != SPEC_LEN_START
        invariant Buffers() && dicPos <= dicLimit && Settled(View(remainLen), dicLimit)
        invariant Tracks(total, carried, src, from, used, Carry(), srcLen)
        invariant Point(View(remainLen), Carry() + src[srcLen..], used) in g.resting
        invariant tempBufSize > 0 ==> Window(View(remainLen), Carry()) in g.incomplete
        decreases dicLimit - dicPos, remainLen != SPEC_LEN_START
      {
        ghost var carry := Carry();
        var flow, n;
        flow, n, status := OneTurn(dicLimit, src[srcLen..], fin, g, used);
        if flow.Fail? {
          return SzErrorData, status, srcLen;
        }
        if flow.Stop? {
          LeftAlone(g.end, total, carried, src, from, carry, srcLen);
          return SzOk, status, srcLen;
        }
        if flow.NeedInput? {
          LeftBehind(g.end, total, carried, src, from, carry, srcLen);
          return SzOk, status, |src|;
        }
        TracksAdvance(total, carried, src, from, used, carry, srcLen, n);
        srcLen, used := srcLen + n, used + |carry| + n;
        assert Carry() == [] && [] + src[srcLen..] == src[srcLen..];
      }
      res := AtEndMark(dicLimit, Carry() + src[srcLen..], g, used);
      if res.SzOk? { LeftAlone(g.end, total, carried, src, from, Carry(), srcLen); }
      status := FinishedWithMark;
    }

    /** After the end mark the code must be 0. */
    method AtEndMark(dicLimit: nat, ghost rest: seq<byte>, ghost g: RunGoal, ghost used: nat) returns (res: SRes)
      requires Shape() && g.p == props && dicPos <= dicLimit == g.lim <= dic.Length && remainLen == SPEC_LEN_START
      requires RunGoalOk(g) && Point(View(remainLen), rest, used) in g.resting && Settled(View(remainLen), dicLimit)
      ensures res == if g.end.Failed? then SzErrorData else SzOk
      ensures res.SzOk? ==> g.end == Stopped(FinishedWithMark, View(remainLen), used)
    {
      StopEnds(g, Point(View(remainLen), rest, used));
      res := if code != 0 then SzErrorData else SzOk;
    }

    ghost function MachineOf(): Machine
      reads this, probs, dic, tempBuf
      requires tempBufSize <= tempBuf.Length && dicPos <= dic.Length
    {
      if remainLen > SPEC_LEN_START then Starting(Carry()) else Running(View(remainLen), Carry())
    }

    ghost predicate Valid()
      reads this, probs, dic, tempBuf
    {
      Buffers() && probs.Length == NumProbs(props) && MachineOk(props, MachineOf()) &&
      (remainLen > SPEC_LEN_START ==> remainLen == SPEC_LEN_START + 2 && dicPos == 0)
    }

    /** Collect the five bytes that start the range coder; with all of them, start over. */
    method StartCoder(src: seq<byte>) returns (from: nat, bad: bool)
      requires Valid() && remainLen > SPEC_LEN_START
      modifies this`tempBufSize, this`range, this`code, this`rep0, this`rep1, this`rep2, this`rep3, this`state,
               this`remainLen, probs, tempBuf
      ensures Buffers() && from <= |src| && bad == (var inp := old(Carry()) + src; |inp| > 0 && inp[0] != 0)
      ensures !bad ==>
                var inp := old(Carry()) + src;
                if |inp| < INIT_SIZE then remainLen == old(remainLen) && Carry() == inp && from == |src|
                else
                  remainLen == 0 && tempBufSize == 0 && View(0) == StartDec(props, inp) &&
                  from == INIT_SIZE - |old(Carry())|
    {
      ghost var inp := Carry() + src;
      from := FillStart(src);
      PrefixFacts(inp, Carry());
      bad := tempBufSize != 0 && tempBuf[0] != 0;
      if !bad && tempBufSize == INIT_SIZE {
        Restart(inp);
      }
    }

    method LoadCode(ghost inp: seq<byte>) returns (v: nat)
      requires tempBuf.Length == REQUIRED_INPUT_MAX && tempBufSize == INIT_SIZE && Carry() <= inp
      ensures |inp| >= INIT_SIZE && v == StartCode(inp)
    {
      assert tempBuf[1] == Carry()[1] && tempBuf[2] == Carry()[2] && tempBuf[3] == Carry()[3] &&
          tempBuf[4] == Carry()[4];
      v := tempBuf[1] as int * 0x100_0000 + tempBuf[2] as int * 0x1_0000 + tempBuf[3] as int * 0x100 + tempBuf[4];
    }

    /** With the five bytes in place: load the coder, reset probabilities, distances, state. */
    method Restart(ghost inp: seq<byte>)
      requires Buffers() && probs.Length == NumProbs(props) && dicPos == 0 && remainLen == SPEC_LEN_START + 2
      requires tempBufSize == INIT_SIZE && Carry() <= inp
      modifies this`tempBufSize, this`range, this`code, this`rep0, this`rep1, this`rep2, this`rep3, this`state,
               this`remainLen, probs
      ensures Buffers() && remainLen == 0 && tempBufSize == 0 && View(0) == StartDec(props, inp)
    {
      code := LoadCode(inp);
      range := FULL_RANGE;
      tempBufSize := 0;
      if remainLen > SPEC_LEN_START + 1 {
        InitState();
      }
      remainLen := 0;
      assert dic[..dicPos] == [];
    }

    method InitState()
      modifies this`rep0, this`rep1, this`rep2, this`rep3, this`state, probs
      ensures probs[..] == seq(probs.Length, _ => PROB_INIT) && rep0 == rep1 == rep2 == rep3 == 1 && state == 0
    {
      InitProbs();
      rep0, rep1, rep2, rep3 := 1, 1, 1, 1;
      state := 0;
    }

    method FillStart(src: seq<byte>) returns (from: nat)
      requires tempBuf.Length == REQUIRED_INPUT_MAX && tempBufSize <= INIT_SIZE
      modifies this`tempBufSize, tempBuf
      ensures from <= |src| && tempBufSize <= INIT_SIZE && Carry() == old(Carry()) + src[..from]
      ensures tempBufSize == INIT_SIZE || from == |src|
    {
      from := 0;
      while from < |src| && tempBufSize < INIT_SIZE
        invariant from <= |src| && tempBufSize <= INIT_SIZE && Carry() == old(Carry()) + src[..from]
      {
        ghost var before := Carry();
        tempBuf[tempBufSize] := src[from];
        tempBufSize := tempBufSize + 1;
        assert Carry() == before + [src[from]];
        assert src[..from + 1] == src[..from] + [src[from]];
        from := from + 1;
      }
    }

    method InitProbs()
      modifies probs
      ensures probs[..] == seq(probs.Length, _ => PROB_INIT)
    {
      var i := 0;
      while i < probs.Length
        invariant 0 <= i <= probs.Length && forall k :: 0 <= k < i ==> probs[k] == PROB_INIT
      {
        probs[i] := PROB_INIT;
        i := i + 1;
      }
    }

    /** One call: status, state, dictionary, bytes held back and bytes consumed are those of
        the reference; the internal-error returns are never taken. */
    method DecodeToDic(dicLimit: nat, src: seq<byte>, fin: FinishMode) returns (res: SRes, status: Status, srcLen: nat)
      requires Valid() && dicPos <= dicLimit <= dic.Length
      modifies this, probs, dic, tempBuf
      ensures match Call(props, old(MachineOf()), src, dicLimit, fin)
              case CallFailed => res == SzErrorData
              case CallOk(s, m, n) => res == SzOk && status == s && srcLen == n && Valid() && MachineOf() == m
    {
      ghost var m0 := MachineOf();
      CallAgain(props, m0, src, dicLimit, fin);
      var from := 0;
      if remainLen > SPEC_LEN_START {
        var bad;
        from, bad := StartCoder(src);
        if bad {
          return SzErrorData, NotSpecified, from;
        }
        if remainLen > SPEC_LEN_START {
          return SzOk, NeedsMoreInput, from;
        }
        StartDecOk(props, m0.carry + src);
      }
      ghost var d, carry := View(remainLen), Carry();
      ghost var o;
      res, status, srcLen, o := DecodeRun(dicLimit, src, from, fin);
      RunIsCall(props, m0, src, dicLimit, fin, d, carry, from, o);
      if res.SzOk? { LeftIsClose(o, carry + src[from..], |carry|, from, Carry(), srcLen); }
    }

    /** The decoder has done what the reference did. */
    ghost predicate Did(r: CallResult, limit: nat, res: SRes, status: Status, srcLen: nat)
      reads this, probs, dic, tempBuf
    {
      match r
      case CallFailed => res == SzErrorData
      case CallOk(s, m, n) => res == SzOk && status == s && srcLen == n && Valid() && MachineOf() == m &&
                              dicPos <= limit <= dic.Length
    }

    /** As DecodeToDic, for a reference result r. */
    method CallOnce(dicLimit: nat, src: seq<byte>, fin: FinishMode, ghost r: CallResult)
      returns (res: SRes, status: Status, srcLen: nat)
      requires Valid() && dicPos <= dicLimit <= dic.Length && r == Call(props, MachineOf(), src, dicLimit, fin)
      modifies this, probs, dic, tempBuf
      ensures Did(r, dicLimit, res, status, srcLen)
    {
      ghost var m := MachineOf();
      if r.CallOk? { CallKeepsOk(props, m, src, dicLimit, fin); }
      res, status, srcLen := DecodeToDic(dicLimit, src, fin);
    }

    /** Any number of calls, one per chunk, are one call on the concatenation. */
    method DecodeChunks(dicLimit: nat, chunks: seq<seq<byte>>, fin: FinishMode)
      returns (res: SRes, status: Status, srcLen: nat)
      requires Valid() && dicPos <= dicLimit <= dic.Length && |chunks| > 0
      modifies this, probs, dic, tempBuf
      ensures Did(Call(props, old(MachineOf()), Concat(chunks), dicLimit, fin), dicLimit, res, status, srcLen)
    {
      StreamingIsOneShot(props, MachineOf(), chunks, dicLimit, fin);
      ghost var r := Feed(props, MachineOf(), chunks, dicLimit, fin);
      res, status, srcLen := FeedChunks(dicLimit, chunks, fin, r);
    }

    method FeedChunks(dicLimit: nat, chunks: seq<seq<byte>>, fin: FinishMode, ghost r: CallResult)
      returns (res: SRes, status: Status, srcLen: nat)
      requires Valid() && dicPos <= dicLimit <= dic.Length && |chunks| > 0
      requires r == Feed(props, MachineOf(), chunks, dicLimit, fin)
      modifies this, probs, dic, tempBuf
      ensures Did(r, dicLimit, res, status, srcLen)
      decreases |chunks|
    {
      ghost var first, rest := FirstChunk(props, MachineOf(), chunks, dicLimit, fin);
      res, status, srcLen := CallOnce(dicLimit, chunks[0], fin, first);
      if res.SzOk? && |chunks| > 1 {
        var n;
        res, status, n := FeedChunks(dicLimit, chunks[1..], fin, rest);
        srcLen := srcLen + n;
      }
    }

    method DecodeRun(dicLimit: nat, src: seq<byte>, from: nat, fin: FinishMode)
      returns (res: SRes, status: Status, srcLen: nat, ghost o: Outcome)
      requires Buffers() && dicPos <= dicLimit <= dic.Length && from <= |src| && remainLen <= SPEC_LEN_START
      requires MachineOk(props, Running(View(remainLen), Carry()))
      modifies this, probs, dic, tempBuf
      ensures o == old(Whole(props, Running(View(remainLen), Carry()), Carry() + src[from..], dicLimit, fin))
      ensures res == if o.Failed? then SzErrorData else SzOk
      ensures res.SzOk? ==> Buffers() && o == Stopped(status, View(remainLen), o.used)
      ensures res.SzOk? ==> Left(o, old(Carry()) + src[from..], |old(Carry())|, from, Carry(), srcLen)
    {
      ghost var rest := Carry() + src[from..];
      ghost var g := RunGoalFrom(props, View(remainLen), rest, dicLimit, fin);
      o := g.end;
      ghost var x := Point(View(remainLen), rest, 0);
      PointRegisters(g, x);
      RestWritten(g, x);
      if tempBufSize > 0 { assert Seen(Window(View(0), Carry())); }
      WriteRemaining(dicLimit);
      res, status, srcLen := MainLoop(dicLimit, src, from, fin, g);
    }
  }

  lemma CallAgain(p: Props, m: Machine, src: seq<byte>, limit: nat, fin: FinishMode)
    requires MachineOk(p, m) && Limit(m) <= limit
    ensures var r := Call(p, m, src, limit, fin); r.CallOk? ==> MachineOk(p, r.machine)
  {
    if Call(p, m, src, limit, fin).CallOk? { CallKeepsOk(p, m, src, limit, fin); }
  }

  /** The call on the first chunk, and the calls on the others after it. */
  lemma FirstChunk(p: Props, m: Machine, chunks: seq<seq<byte>>, limit: nat, fin: FinishMode)
    returns (first: CallResult, rest: CallResult)
    requires MachineOk(p, m) && Limit(m) <= limit && |chunks| > 0
    ensures first == Call(p, m, chunks[0], limit, fin)
    ensures if first.CallFailed? || |chunks| == 1 then Feed(p, m, chunks, limit, fin) == first
            else MachineOk(p, first.machine) && Limit(first.machine) <= limit &&
                 rest == Feed(p, first.machine, chunks[1..], limit, fin) &&
                 Feed(p, m, chunks, limit, fin) == Plus(first.consumed, rest)
  {
    first := Call(p, m, chunks[0], limit, fin);
    rest := first;
    if first.CallOk? && |chunks| > 1 {
      CallKeepsOk(p, m, chunks[0], limit, fin);
      rest := Feed(p, first.machine, chunks[1..], limit, fin);
    }
  }

  /** A call's run, seen from where the range coder has been started. */
  lemma RunIsCall(p: Props, m: Machine, src: seq<byte>, limit: nat, fin: FinishMode, d: Dec, carry: seq<byte>,
                  from: nat, o: Outcome)
    requires MachineOk(p, m) && Limit(m) <= limit && !StillStarting(m, m.carry + src) && from <= |src|
    requires MachineOk(p, Running(d, carry)) && |d.out| <= limit &&
             o == Whole(p, Running(d, carry), carry + src[from..], limit, fin)
    requires match m case Starting(c) => carry == [] && d == StartDec(p, c + src) && from == INIT_SIZE - |c|
                     case Running(d', c) => d == d' && carry == c && from == 0
    ensures Call(p, m, src, limit, fin) == CloseFrom(o, carry + src[from..], |carry|, from)
  {
    CallIsWhole(p, m, src, limit, fin);
    assert src[0..] == src;
    if m.Starting? {
      var inp := m.carry + src;
      assert [] + src[from..] == src[from..] == inp[INIT_SIZE..];
      WriteRemOk(p, d, limit);
      var w := Whole(p, m, inp, limit, fin);
      assert w == After(INIT_SIZE, o);
      if o.Stopped? { assert inp[INIT_SIZE + o.used..] == src[from..][o.used..]; }
    }
  }

  /** Close, for a run that starts at src[from]. */
  ghost function CloseFrom(o: Outcome, total: seq<byte>, carried: nat, from: nat): CallResult
    requires carried <= |total| && (o.Stopped? ==> o.used <= |total|)
  {
    Plus(from, Close(o, total, carried))
  }

  lemma LeftIsClose(o: Outcome, total: seq<byte>, carried: nat, from: nat, carry: seq<byte>, srcLen: nat)
    requires o.Stopped? && carried <= |total| && Left(o, total, carried, from, carry, srcLen)
    ensures CloseFrom(o, total, carried, from) == CallOk(o.status, Running(o.dec, carry), srcLen)
  {
  }

  /** `used` bytes of `total` are behind; `carry` and src[srcLen..] are the rest. */
  ghost predicate Tracks(total: seq<byte>, carried: nat, src: seq<byte>, from: nat, used: nat, carry: seq<byte>,
                         srcLen: nat)
  {
    from <= srcLen <= |src| && used <= |total| && |total| == carried + (|src| - from) &&
    total[used..] == carry + src[srcLen..] &&
    if carry != [] then used == 0 && srcLen == from && carry == total[..carried]
    else carried <= used && srcLen == from + (used - carried)
  }

  lemma PrefixFacts(inp: seq<byte>, a: seq<byte>)
    requires a <= inp
    ensures |a| > 0 ==> a[0] == inp[0]
    ensures |a| == |inp| ==> a == inp
  {
  }

  lemma RestOfSource(inp: seq<byte>, src: seq<byte>, taken: nat, carried: nat, n: nat)
    requires taken <= |src| && carried + taken == |inp| && inp[carried..] == src[..taken] && carried <= n <= |inp|
    ensures inp[n..] + src[taken..] == src[n - carried..]
  {
    assert inp[n..] == inp[carried..][n - carried..] == src[..taken][n - carried..];
    assert src == src[..taken] + src[taken..];
  }

  lemma TracksStart(carry: seq<byte>, src: seq<byte>, from: nat)
    requires from <= |src|
    ensures Tracks(carry + src[from..], |carry|, src, from, 0, carry, from)
  {
    var total := carry + src[from..];
    assert total[0..] == total && total[..|carry|] == carry;
  }

  lemma TracksAdvance(total: seq<byte>, carried: nat, src: seq<byte>, from: nat, used: nat, carry: seq<byte>,
                      srcLen: nat, n: nat)
    requires Tracks(total, carried, src, from, used, carry, srcLen) && n <= |src| - srcLen
    ensures Tracks(total, carried, src, from, used + |carry| + n, [], srcLen + n) &&
            src[srcLen..][n..] == src[srcLen + n..]
  {
    assert total[used + |carry| + n..] == total[used..][|carry| + n..] == src[srcLen + n..];
  }

  lemma LeftAlone(o: Outcome, total: seq<byte>, carried: nat, src: seq<byte>, from: nat, carry: seq<byte>, srcLen: nat)
    requires o.Stopped? && !o.status.NeedsMoreInput? && Tracks(total, carried, src, from, o.used, carry, srcLen)
    ensures Left(o, total, carried, from, carry, srcLen)
  {
  }

  lemma LeftBehind(o: Outcome, total: seq<byte>, carried: nat, src: seq<byte>, from: nat, carry: seq<byte>, srcLen: nat)
    requires o.Stopped? && o.status.NeedsMoreInput? && Tracks(total, carried, src, from, o.used, carry, srcLen)
    ensures Left(o, total, carried, from, carry + src[srcLen..], |src|)
  {
  }

  datatype SRes = SzOk | SzErrorData | SzErrorUnsupported | SzErrorInputEof

  /** Bytes held back and consumed when a run on `total`, `carried` of it held back before
      and the rest starting at src[from], has stopped. */
  ghost predicate Left(o: Outcome, total: seq<byte>, carried: nat, from: nat, carry: seq<byte>, srcLen: nat)
    requires o.Stopped? && carried <= |total|
  {
    o.used <= |total| &&
    if o.status.NeedsMoreInput? then carry == total[o.used..] && srcLen == from + (|total| - carried)
    else if o.used < carried then carry == total[..carried] && srcLen == from
    else carry == [] && srcLen == from + (o.used - carried)
  }

  /** What one turn of DecodeToDic's loop decides; Internal is SZ_ERROR_FAIL. */
  datatype Flow = Continue | NeedInput | Stop | Fail | Internal

  /** The first `least` bytes of the buffer do not complete the symbol. */
  ghost predicate AtLeast(g: RunGoal, d: Dec, inp: seq<byte>, least: nat)
  {
    least > 0 ==> least <= |inp| && Window(d, inp[..least]) in g.incomplete
  }

  /** The bytes of the next symbol and the decoder after it. */
  lemma NextPoint(g: RunGoal, d: Dec, a: seq<byte>, extra: seq<byte>, used: nat, limit: nat, least: nat)
    returns (n: nat, r: Option<Dec>)
    requires RunGoalOk(g) && Point(d, a + extra, used) in g.going && Window(d, a) in g.readable &&
             AtLeast(g, d, a, least)
    requires (|d.out| == 0 ==> d.code < BAD_REP_CODE) && |d.out| <= limit <= g.lim &&
             (limit < g.lim ==> |d.out| < limit)
    ensures DecOk(g.p, d) && d.remainLen == 0 && Symbol(g.p, d, a).Some? && least <= n <= |a|
    ensures |d.out| == limit ==> IsMatchKind(Symbol(g.p, d, a).value.phase.sym)
    ensures n == Symbol(g.p, d, a).value.coder.pos && r == StepSym(g.p, d, Symbol(g.p, d, a).value, limit)
    ensures r.None? ==> g.end == Failed
    ensures r.Some? ==>
              Settled(r.value, limit) && |d.out| <= |r.value.out| &&
              (r.value.remainLen == SPEC_LEN_START || |d.out| < |r.value.out|) &&
                        Point(r.value, a[n..] + extra, used + n) in g.resting
  {
    WindowFacts(g, Window(d, a));
    PointStep(g, d, a, extra, used, limit);
    if least > 0 { LongerThan(g, d, a, least); }
    var m := Symbol(g.p, d, a).value;
    n, r := m.coder.pos, StepSym(g.p, d, m, limit);
  }

  /** NORMALIZE_CHECK. */
  method NormalizeCheck(k: Coder, inp: seq<byte>) returns (ok: bool, k': Coder)
    ensures Normalize(k, inp) == if ok then Some(k') else None
  {
    if k.range < TOP {
      if k.pos >= |inp| {
        return false, k;
      }
      return true, Coder(k.range * 256, k.code * 256 % WORD + inp[k.pos], k.pos + 1);
    }
    return true, k;
  }

  datatype Dummy = DummyError | DummyLit | DummyMatch | DummyRep

  function DummyKind(s: Sym): Dummy { if s.Lit? then DummyLit else if IsMatchKind(s) then DummyMatch else DummyRep }

  function DummyOf(r: Option<Micro>): Dummy
    requires r.Some? ==> r.value.phase.Done?
  {
    if r.None? then DummyError else DummyKind(r.value.phase.sym)
  }

  /** TryDummy's own mask form of a direct bit computes the same remainder. */
  lemma DummyBranchFree(k: Coder)
    requires CoderOk(k)
    ensures var half := k.range / 2; var t := ((k.code - half) % WORD / 0x8000_0000 - 1) % WORD;
            And(half, t) <= k.code && Coder(half, k.code - And(half, t), k.pos) == AfterRaw(k)
  {
    var half := k.range / 2;
    AndOnes(half);
    assert And(half, 0) == 0;
  }

  /** The dictionary half neither reads nor writes the range coder. */
  lemma ApplyIgnoresCoder(p: Props, d: Dec, s: Sym, limit: nat, r: nat, k: nat)
    requires SymOk(s) && |d.out| <= limit
    ensures ApplySym(p, d.(range := r, code := k), s, limit) ==
            match ApplySym(p, d, s, limit) { case None => None case Some(x) => Some(x.(range := r, code := k)) }
  {
  }

  // ---- LzmaProps_Decode and LzmaDecode ----

  /** The five property bytes: lc, lp and pb in one, then the dictionary size. */
  ghost predicate PropsAre(data: seq<byte>, r: Option<Props>)
  {
    (r.Some? <==> |data| >= 5 && data[0] < 225) &&
    (r.Some? ==>
       var n := data[1] as int + data[2] as int * 0x100 + data[3] as int * 0x1_0000 + data[4] as int * 0x100_0000;
       PropsOk(r.value) && data[0] == (r.value.pb * 5 + r.value.lp) * 9 + r.value.lc &&
       r.value.dicSize == if n < DIC_MIN then DIC_MIN else n)
  }

  method PropsDecode(data: seq<byte>) returns (r: Option<Props>)
    ensures PropsAre(data, r)
  {
    if |data| < 5 {
      return None;
    }
    var dicSize := data[1] as int + data[2] as int * 0x100 + data[3] as int * 0x1_0000 + data[4] as int * 0x100_0000;
    if dicSize < DIC_MIN {
      dicSize := DIC_MIN;
    }
    var d: nat := data[0];
    if d >= 9 * 5 * 5 {
      return None;
    }
    var lc := d % 9;
    d := d / 9;
    r := Some(Props(lc, d % 5, d / 5, dicSize));
  }

  /** The one-call interface: the whole input into the whole buffer. */
  method LzmaDecode(dest: array<byte>, src: seq<byte>, propData: seq<byte>, fin: FinishMode)
    returns (res: SRes, status: Status, destLen: nat, srcLen: nat, ghost p: Option<Props>)
    requires dest.Length < WORD
    modifies dest
    ensures |src| < INIT_SIZE ==> res == SzErrorInputEof
    ensures |src| >= INIT_SIZE ==> PropsAre(propData, p) && (p.None? ==> res == SzErrorUnsupported)
    ensures |src| >= INIT_SIZE && p.Some? ==>
              PropsOk(p.value) &&
              match Call(p.value, Starting([]), src, dest.Length, fin)
              case CallFailed => res == SzErrorData
              case CallOk(s, m, n) =>
                m.Running? && res == (if s.NeedsMoreInput? then SzErrorInputEof else SzOk) &&
                status == s && srcLen == n &&
                destLen == |m.dec.out| <= dest.Length &&
                dest[..destLen] == m.dec.out == CutExpansion(p.value, src, dest.Length, fin)
  {
    status, destLen, srcLen, p := NotSpecified, 0, 0, None;
    if |src| < INIT_SIZE {
      return SzErrorInputEof, status, destLen, srcLen, p;
    }
    var props := PropsDecode(propData);
    p := props;
    if props.None? {
      res := SzErrorUnsupported;
      return;
    }
    var dec := new CLzmaDec(props.value, dest);
    res, status, srcLen := dec.DecodeToDic(dest.Length, src, fin);
    assert [] + src == src;
    destLen := dec.dicPos;
    if res == SzOk { OneCallIsExpansion(props.value, src, dest.Length, fin); }
    if res == SzOk && status == NeedsMoreInput {
      res := SzErrorInputEof;
    }
  }

  /** The phase behind `offs`: still following the match byte, or past a mismatch. */
  ghost function MatchedPhase(symbol: nat, offs: nat, matchByte: nat): Phase
    requires symbol < 512
  {
    if symbol >= 256 then Done(Lit(symbol - 256))
    else if offs == 0x100 then LitMatched(symbol, matchByte % 256)
    else LitPlain(symbol)
  }

  /** `offs &= matchByte`, and `offs ^= bit` after it. */
  method MaskOffs(matchByte: nat, offs: nat) returns (kept: nat, flipped: nat)
    requires offs == 0 || offs == 0x100
    ensures kept == if offs == 0 then 0 else 0x100 * (matchByte / 256 % 2)
    ensures flipped == offs - kept
  {
    kept := And(matchByte, offs);
    AndBit8(matchByte);
    AndSelf(offs);
    assert And(matchByte, 0) == 0 && And(0, offs) == 0;
    flipped := Xor(kept, offs);
  }

  /** The offs/mask trick asks for the cell, and moves to the phase, that following the
      match byte until the first mismatch does. */
  lemma MatchedStep(c: Ctx, symbol: nat, offs: nat, matchByte: nat, kept: nat)
    requires 1 <= symbol < 256 && (offs == 0 || offs == 0x100)
    requires kept == if offs == 0 then 0 else 0x100 * ((matchByte + matchByte) / 256 % 2)
    ensures var ph := MatchedPhase(symbol, offs, matchByte);
            PhaseOk(ph) && !ph.Done? && Ask(c, ph) == Model(c.lit + (kept + offs + symbol)) &&
            Next(c, ph, false) == MatchedPhase(2 * symbol, offs - kept, matchByte + matchByte) &&
            Next(c, ph, true) == MatchedPhase(2 * symbol + 1, kept, matchByte + matchByte)
  {
    if offs == 0x100 {
      DoubledByte(matchByte);
      FollowStep(c, symbol, matchByte, false);
      FollowStep(c, symbol, matchByte, true);
    }
  }

  lemma DoubledByte(mb: nat)
    ensures (mb + mb) % 256 == 2 * (mb % 256) % 256 && (mb + mb) / 256 % 2 == mb % 256 / 128 <= 1
  {
  }

  lemma FollowStep(c: Ctx, symbol: nat, mb: nat, bit: bool)
    requires 1 <= symbol < 256 && (mb + mb) % 256 == 2 * (mb % 256) % 256
    ensures var ph := LitMatched(symbol, mb % 256); var k := mb % 256 / 128;
            PhaseOk(ph) && Ask(c, ph) == Model(c.lit + (0x100 * k + 0x100 + symbol)) &&
            Next(c, ph, bit) == MatchedPhase(2 * symbol + B(bit), if B(bit) == k then 0x100 else 0, mb + mb)
  {
  }

  lemma AnswerDirect(c: Ctx, m: Micro)
    requires MicroOk(c, m) && m.phase.Direct? && TOP <= m.coder.range
    ensures Answer(c, m, true) == Micro(Next(c, m.phase, RawBit(m.coder)), m.probs, AfterRaw(m.coder))
  {
  }

  /** The mask form computes the bit and the remainder of a direct bit. */
  lemma BranchFree(k: Coder, distance: nat)
    requires CoderOk(k) && distance < 0x1000_0000
    ensures var half := k.range / 2; var diff := (k.code - half) % WORD; var t := (0 - diff / 0x8000_0000) % WORD;
            (distance * 2 + (t + 1) % WORD) % WORD == 2 * distance + B(RawBit(k)) &&
            Coder(half, (diff + And(half, t)) % WORD, k.pos) == AfterRaw(k)
  {
    var half := k.range / 2;
    AndOnes(half);
    assert And(half, 0) == 0;
  }

  lemma DirectFits(d: nat, left: nat)
    requires left > 0 && (d + 1) * Pow2(left) <= 0x1000_0000
    ensures d < 0x1000_0000
  {
    MulMono(d + 1, 1, Pow2(left));
  }
}
