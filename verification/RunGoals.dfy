/** Points of a whole run, and what each step of the drivers does to them. */
module RunGoals {
  import opened Words
  import opened RangeCoder
  import opened Symbols
  import opened SymbolRun
  import opened InputBound
  import opened Dictionary
  import opened Decoder
  import opened Streaming

  /** A decoder, the input it has not read, and how much it has. */
  datatype Point = Point(d: Dec, rest: seq<byte>, used: nat)

  /** A decoder and a buffer it is to read a symbol from. */
  datatype Window = Window(d: Dec, inp: seq<byte>)

  /** A run that ends in `end`: from the points in `going` by decoding a symbol at once,
      from those in `resting` by finishing the pending copy and then going on. The windows in
      `readable` hold a whole symbol, those in `incomplete` do not. */
  datatype RunGoal = RunGoal(p: Props, lim: nat, fin: FinishMode, end: Outcome, going: iset<Point>,
                             resting: iset<Point>, readable: iset<Window>, incomplete: iset<Window>)

  /** Marks the points a statement about all of them is wanted for. */
  ghost predicate Marked(x: Point) { true }

  ghost predicate Seen(w: Window) { true }

  ghost predicate GoingLeads(g: RunGoal, x: Point)
  {
    DecOk(g.p, x.d) && |x.d.out| <= g.lim && x.d.remainLen == 0 &&
    After(x.used, Go(g.p, x.d, x.rest, g.lim, g.fin)) == g.end
  }

  ghost predicate RestingLeads(g: RunGoal, x: Point)
  {
    DecOk(g.p, x.d) && |x.d.out| <= g.lim && After(x.used, DecodeOn(g, x.d, x.rest)) == g.end
  }

  ghost function DecodeOn(g: RunGoal, d: Dec, rest: seq<byte>): Outcome
    requires DecOk(g.p, d) && |d.out| <= g.lim
  {
    WriteRemOk(g.p, d, g.lim);
    Decode(g.p, WriteRem(d, g.lim), rest, g.lim, g.fin)
  }

  ghost predicate RunGoalOk(g: RunGoal)
  {
    (forall x: Point {:trigger Marked(x)} :: Marked(x) ==>
       (x in g.going <==> GoingLeads(g, x)) && (x in g.resting <==> RestingLeads(g, x))) &&
    (forall w: Window {:trigger Seen(w)} :: Seen(w) ==>
       (w in g.readable <==> DecOk(g.p, w.d) && Readable(g.p, w.d, w.inp, g.lim)) &&
       (w in g.incomplete <==> DecOk(g.p, w.d) && Symbol(g.p, w.d, w.inp).None?))
  }

  /** The goal of the run from d on `rest`. */
  ghost function RunGoalTo(p: Props, lim: nat, fin: FinishMode, end: Outcome): (g: RunGoal)
  {
    var g := RunGoal(p, lim, fin, end, iset{}, iset{}, iset{}, iset{});
    RunGoal(p, lim, fin, end, iset x: Point | GoingLeads(g, x), iset x: Point | RestingLeads(g, x),
            iset w: Window | DecOk(p, w.d) && Readable(p, w.d, w.inp, lim),
            iset w: Window | DecOk(p, w.d) && Symbol(p, w.d, w.inp).None?)
  }

  lemma RunGoalIsOk(p: Props, lim: nat, fin: FinishMode, end: Outcome)
    ensures RunGoalOk(RunGoalTo(p, lim, fin, end))
  {
  }

  lemma RunGoalFrom(p: Props, d: Dec, rest: seq<byte>, lim: nat, fin: FinishMode) returns (g: RunGoal)
    requires DecOk(p, d) && |d.out| <= lim
    ensures RunGoalOk(g) && g.p == p && g.lim == lim && g.fin == fin && Point(d, rest, 0) in g.resting &&
            g.end == DecodeOn(g, d, rest)
  {
    var g0 := RunGoal(p, lim, fin, Failed, iset{}, iset{}, iset{}, iset{});
    var end := DecodeOn(g0, d, rest);
    g := RunGoalTo(p, lim, fin, end);
    RunGoalIsOk(p, lim, fin, end);
    assert Marked(Point(d, rest, 0));
    assert RestingLeads(g, Point(d, rest, 0));
  }

  /** The next symbol is complete in `inp` and may be decoded. */
  ghost predicate Readable(p: Props, d: Dec, inp: seq<byte>, lim: nat)
    requires DecOk(p, d)
  {
    d.remainLen == 0 && |d.out| <= lim && Symbol(p, d, inp).Some? &&
    (|d.out| == lim ==> IsMatchKind(Symbol(p, d, inp).value.phase.sym))
  }

  lemma EnoughInput(p: Props, d: Dec, inp: seq<byte>)
    requires DecOk(p, d) && |inp| >= REQUIRED_INPUT_MAX
    ensures Symbol(p, d, inp).Some?
  {
    TwentyBytesSuffice(CtxOf(p, d), d.probs, Coder(d.range, d.code, 0), inp, true);
  }

  /** Without a pending copy, and wanting a symbol, a resting point is a going one. */
  lemma RestToGo(g: RunGoal, x: Point)
    requires RunGoalOk(g) && x in g.resting && Going(x.d, g.lim, g.fin)
    ensures x in g.going
  {
    assert Marked(x);
    WriteRemOk(g.p, x.d, g.lim);
  }

  lemma PointFacts(g: RunGoal, x: Point)
    requires RunGoalOk(g) && (x in g.resting || x in g.going)
    ensures DecOk(g.p, x.d) && |x.d.out| <= g.lim && (x in g.going ==> x.d.remainLen == 0)
  {
    assert Marked(x);
  }

  /** What the drivers need to know of a point, and no more. */
  lemma PointRegisters(g: RunGoal, x: Point)
    requires RunGoalOk(g) && (x in g.resting || x in g.going)
    ensures TOP <= x.d.range < WORD && x.d.code < WORD && x.d.remainLen <= SPEC_LEN_START && |x.d.out| <= g.lim
    ensures 0 < x.d.remainLen < SPEC_LEN_START ==> 1 <= x.d.reps.r0 <= |x.d.out|
    ensures x in g.going ==> x.d.remainLen == 0
  {
    assert Marked(x);
  }

  lemma WindowFacts(g: RunGoal, w: Window)
    requires RunGoalOk(g) && w in g.readable
    ensures DecOk(g.p, w.d) && Readable(g.p, w.d, w.inp, g.lim)
  {
    assert Seen(w);
  }

  /** With room and twenty bytes, a run goes on. */
  lemma GoOn(g: RunGoal, d: Dec, inp: seq<byte>, extra: seq<byte>, used: nat)
    requires RunGoalOk(g) && Point(d, inp + extra, used) in g.resting && d.remainLen == 0 && |d.out| < g.lim
    requires |inp| >= REQUIRED_INPUT_MAX
    ensures Point(d, inp + extra, used) in g.going && Window(d, inp) in g.readable
  {
    RestToGo(g, Point(d, inp + extra, used));
    RestOfWindow(g, d, inp, extra, used);
  }

  /** A symbol cut at an inner limit leaves a resting point; corrupt data ends the run. */
  lemma PointStep(g: RunGoal, d: Dec, a: seq<byte>, extra: seq<byte>, used: nat, limit: nat)
    requires RunGoalOk(g) && Point(d, a + extra, used) in g.going && (|d.out| == 0 ==> d.code < BAD_REP_CODE)
    requires DecOk(g.p, d) && Readable(g.p, d, a, g.lim) && |d.out| <= limit <= g.lim &&
             (limit < g.lim ==> |d.out| < limit)
    ensures var m := Symbol(g.p, d, a).value; var r := StepSym(g.p, d, m, limit);
            m.coder.pos <= |a| &&
            if r.None? then g.end == Failed
            else DecOk(g.p, r.value) && Settled(r.value, limit) && |d.out| <= |r.value.out| &&
                 (r.value.remainLen == SPEC_LEN_START || |d.out| < |r.value.out|) &&
                 Point(r.value, a[m.coder.pos..] + extra, used + m.coder.pos) in g.resting
  {
    assert Marked(Point(d, a + extra, used));
    StepKeepsOk(g.p, d, a, limit);
    var r := StepSym(g.p, d, Symbol(g.p, d, a).value, limit);
    StepUnder(g, d, a, extra, limit);
    if r.Some? {
      var n := Symbol(g.p, d, a).value.coder.pos;
      assert Marked(Point(r.value, a[n..] + extra, used + n));
    }
  }

  lemma StepUnder(g: RunGoal, d: Dec, a: seq<byte>, extra: seq<byte>, limit: nat)
    requires DecOk(g.p, d) && Readable(g.p, d, a, g.lim) && |d.out| <= limit <= g.lim &&
             (limit < g.lim ==> |d.out| < limit)
    ensures var m := Symbol(g.p, d, a).value; var r := StepSym(g.p, d, m, limit); var n := m.coder.pos;
            n <= |a| && (r.Some? ==> DecOk(g.p, r.value) && Settled(r.value, limit)) &&
            Go(g.p, d, a + extra, g.lim, g.fin) == if r.None? then Failed
                                                   else After(n, DecodeOn(g, r.value, a[n..] + extra))
  {
    RunExtends(CtxOf(g.p, d), StartOf(d, 0), a, extra, true);
    GoStep(g.p, d, a + extra, g.lim, g.fin);
    StepKeepsOk(g.p, d, a, limit);
    var m := Symbol(g.p, d, a).value;
    StepTwice(g.p, d, m, limit, g.lim);
    assert (a + extra)[m.coder.pos..] == a[m.coder.pos..] + extra;
  }

  lemma StepTwice(p: Props, d: Dec, m: Micro, limit: nat, lim: nat)
    requires DecOk(p, d) && d.remainLen == 0 && m.phase.Done? && SymOk(m.phase.sym) && |d.out| <= limit <= lim &&
             (limit < lim ==> |d.out| < limit)
    ensures var r := StepSym(p, d, m, limit);
            StepSym(p, d, m, lim) == if r.None? then None
                                     else if |r.value.out| <= lim then Some(WriteRem(r.value, lim)) else r
  {
    ApplyTwice(p, WithCoder(d, m), m.phase.sym, limit, lim);
  }

  /** Cut at an inner limit and finished by WriteRem, or cut at the outer limit: the same. */
  lemma ApplyTwice(p: Props, d: Dec, s: Sym, limit: nat, lim: nat)
    requires d.remainLen == 0 && SymOk(s) && |d.out| <= limit <= lim && (limit < lim ==> |d.out| < limit)
    ensures var r := ApplySym(p, d, s, limit);
            ApplySym(p, d, s, lim) == if r.None? then None
                                      else if |r.value.out| <= lim then Some(WriteRem(r.value, lim)) else r
  {
    if s.Rep? || s.Match? { CopyTwice(Turn(d, s), s.len + 2, limit, lim); }
  }

  lemma CopyTwice(d: Dec, len: nat, limit: nat, lim: nat)
    requires len < SPEC_LEN_START && |d.out| <= limit <= lim
    ensures WriteRem(Copy(d, len, limit), lim) == Copy(d, len, lim)
  {
    var n := Min(len, limit - |d.out|);
    var k := Min(len, lim - |d.out|);
    ExpandAdd(d.out, d.reps.r0, n, k - n);
  }

  /** At the very start, a code that announces a repeat match ends the run. */
  lemma BadRepEnds(g: RunGoal, d: Dec, inp: seq<byte>, extra: seq<byte>, used: nat)
    requires RunGoalOk(g) && Point(d, inp + extra, used) in g.going && Window(d, inp) in g.readable
    requires |d.out| == 0 && d.code >= BAD_REP_CODE
    ensures g.end == Failed
  {
    WindowFacts(g, Window(d, inp));
    assert Marked(Point(d, inp + extra, used));
    RunExtends(CtxOf(g.p, d), StartOf(d, 0), inp, extra, true);
    GoStep(g.p, d, inp + extra, g.lim, g.fin);
  }

  /** Finishing the pending copy early changes nothing. */
  lemma RestWritten(g: RunGoal, x: Point)
    requires RunGoalOk(g) && x in g.resting && |x.d.out| <= g.lim
    ensures Point(WriteRem(x.d, g.lim), x.rest, x.used) in g.resting && Settled(WriteRem(x.d, g.lim), g.lim)
  {
    assert Marked(x);
    WriteRemOk(g.p, x.d, g.lim);
    WriteRemOk(g.p, WriteRem(x.d, g.lim), g.lim);
    assert Marked(Point(WriteRem(x.d, g.lim), x.rest, x.used));
  }

  /** A symbol that its first `least` bytes do not complete is longer than that. */
  lemma LongerThan(g: RunGoal, d: Dec, inp: seq<byte>, least: nat)
    requires RunGoalOk(g) && Window(d, inp) in g.readable && least <= |inp| && Window(d, inp[..least]) in g.incomplete
    ensures DecOk(g.p, d) && Symbol(g.p, d, inp).Some? && least < Symbol(g.p, d, inp).value.coder.pos
  {
    WindowFacts(g, Window(d, inp));
    assert Seen(Window(d, inp[..least]));
    RunOnPrefix(CtxOf(g.p, d), StartOf(d, 0), inp, least, true);
  }

  // ---- Where a run ends ----

  lemma NeedsEnds(g: RunGoal, d: Dec, inp: seq<byte>, used: nat)
    requires RunGoalOk(g) && Point(d, inp, used) in g.going && Window(d, inp) in g.incomplete
    ensures g.end == Stopped(NeedsMoreInput, d, used) && |inp| < REQUIRED_INPUT_MAX
  {
    assert Marked(Point(d, inp, used)) && Seen(Window(d, inp));
    IncompleteIsShort(g.p, d, inp);
  }

  /** At the limit, with the end mark wanted, any other symbol is an error. */
  lemma WrongKindEnds(g: RunGoal, d: Dec, inp: seq<byte>, extra: seq<byte>, used: nat)
    requires RunGoalOk(g) && Point(d, inp + extra, used) in g.going && |d.out| == g.lim
    requires DecOk(g.p, d) && Symbol(g.p, d, inp).Some? && !IsMatchKind(Symbol(g.p, d, inp).value.phase.sym)
    ensures g.end == Failed
  {
    assert Marked(Point(d, inp + extra, used));
    RunExtends(CtxOf(g.p, d), StartOf(d, 0), inp, extra, true);
    GoStep(g.p, d, inp + extra, g.lim, g.fin);
  }

  /** A settled point that wants no symbol ends the run on the spot. */
  lemma StopEnds(g: RunGoal, x: Point)
    requires RunGoalOk(g) && x in g.resting && Settled(x.d, g.lim) && !Going(x.d, g.lim, g.fin)
    ensures g.end ==
            if x.d.remainLen == SPEC_LEN_START then (if x.d.code != 0 then Failed
                                                     else Stopped(FinishedWithMark, x.d, x.used))
            else if x.d.remainLen == 0 && x.d.code == 0 then Stopped(MaybeFinishedWithoutMark, x.d, x.used)
            else if g.fin.FinishAny? then Stopped(NotFinished, x.d, x.used)
            else Failed
  {
    assert Marked(x);
    WriteRemOk(g.p, x.d, g.lim);
  }

  /** Twenty bytes and room make a window readable. */
  lemma RestOfWindow(g: RunGoal, d: Dec, inp: seq<byte>, extra: seq<byte>, used: nat)
    requires RunGoalOk(g) && Point(d, inp + extra, used) in g.going && |d.out| < g.lim && |inp| >= REQUIRED_INPUT_MAX
    ensures Window(d, inp) in g.readable
  {
    PointFacts(g, Point(d, inp + extra, used));
    EnoughInput(g.p, d, inp);
    assert Seen(Window(d, inp));
  }
}
