/** LzmaDec_DecodeToDic as a function of its carry buffer and one chunk of input, and
    the law it exists for: how the input is cut into chunks is invisible. */
module Streaming {
  import opened Words
  import opened RangeCoder
  import opened Symbols
  import opened SymbolRun
  import opened InputBound
  import opened Dictionary
  import opened Decoder

  const INIT_SIZE := 5   // RC_INIT_SIZE

  /** The decoder and the input bytes it holds back: still reading the five bytes of the
      range coder's start, or waiting for the rest of a symbol. */
  datatype Machine = Starting(carry: seq<byte>) | Running(dec: Dec, carry: seq<byte>)

  ghost predicate MachineOk(p: Props, m: Machine)
  {
    match m
    case Starting(carry) => PropsOk(p) && |carry| < INIT_SIZE && (|carry| > 0 ==> carry[0] == 0)
    case Running(d, carry) =>
      DecOk(p, d) && |carry| < REQUIRED_INPUT_MAX &&
      (carry != [] ==> d.remainLen == 0 && Symbol(p, d, carry).None?)
  }

  datatype CallResult = CallFailed | CallOk(status: Status, machine: Machine, consumed: nat)

  function StartCode(inp: seq<byte>): nat
    requires |inp| >= INIT_SIZE
  {
    inp[1] as int * 0x100_0000 + inp[2] as int * 0x1_0000 + inp[3] as int * 0x100 + inp[4]
  }

  function StartDec(p: Props, inp: seq<byte>): Dec
    requires |inp| >= INIT_SIZE
  {
    Dec(seq(NumProbs(p), _ => PROB_INIT), 0, Reps(1, 1, 1, 1), FULL_RANGE, StartCode(inp), [], 0)
  }

  lemma StartDecOk(p: Props, inp: seq<byte>)
    requires PropsOk(p) && |inp| >= INIT_SIZE
    ensures DecOk(p, StartDec(p, inp))
  {
  }

  /** LzmaDec_WriteRem: finish a copy the last limit cut short. */
  function WriteRem(d: Dec, limit: nat): Dec
    requires |d.out| <= limit
  {
    if 0 < d.remainLen < SPEC_LEN_START then Copy(d, d.remainLen, limit) else d
  }

  lemma WriteRemOk(p: Props, d: Dec, limit: nat)
    requires DecOk(p, d) && |d.out| <= limit
    ensures DecOk(p, WriteRem(d, limit)) && Settled(WriteRem(d, limit), limit)
    ensures Settled(d, limit) ==> WriteRem(d, limit) == d
  {
  }

  /** Which bytes stay behind: the unfinished symbol, or an untouched carry. */
  function Close(o: Outcome, inp: seq<byte>, carried: nat): CallResult
    requires carried <= |inp| && (o.Stopped? ==> o.used <= |inp|)
  {
    match o
    case Failed => CallFailed
    case Stopped(s, d, used) =>
      if s.NeedsMoreInput? then CallOk(s, Running(d, inp[used..]), |inp| - carried)
      else if used < carried then CallOk(s, Running(d, inp[..carried]), 0)
      else CallOk(s, Running(d, []), used - carried)
  }

  function Limit(m: Machine): nat { if m.Starting? then 0 else |m.dec.out| }

  /** One call of LzmaDec_DecodeToDic. */
  function Call(p: Props, m: Machine, src: seq<byte>, limit: nat, fin: FinishMode): CallResult
    requires MachineOk(p, m) && Limit(m) <= limit
  {
    var inp := m.carry + src;
    match m
    case Starting(carry) =>
      if |inp| > 0 && inp[0] != 0 then CallFailed
      else if |inp| < INIT_SIZE then CallOk(NeedsMoreInput, Starting(inp), |src|)
      else
        StartDecOk(p, inp);
        Close(After(INIT_SIZE, Decode(p, StartDec(p, inp), inp[INIT_SIZE..], limit, fin)), inp, |carry|)
    case Running(d, carry) =>
      WriteRemOk(p, d, limit);
      Close(Decode(p, WriteRem(d, limit), inp, limit, fin), inp, |carry|)
  }

  // ---- Splitting a run of Decode ----

  /** How a run on `a` continues when `b` arrives. */
  function Resume(p: Props, o: Outcome, a: seq<byte>, b: seq<byte>, limit: nat, fin: FinishMode): Outcome
    requires o.Stopped? ==> DecOk(p, o.dec) && Settled(o.dec, limit) && o.used <= |a|
  {
    if o.Stopped? && o.status.NeedsMoreInput? then After(o.used, Decode(p, o.dec, a[o.used..] + b, limit, fin)) else o
  }

  lemma ResumeAfter(p: Props, n: nat, o: Outcome, a: seq<byte>, b: seq<byte>, limit: nat, fin: FinishMode)
    requires n <= |a| && (o.Stopped? ==> DecOk(p, o.dec) && Settled(o.dec, limit) && o.used <= |a| - n)
    ensures Resume(p, After(n, o), a, b, limit, fin) == After(n, Resume(p, o, a[n..], b, limit, fin))
  {
    if o.Stopped? { assert a[n..][o.used..] == a[n + o.used..]; }
  }

  /** Same input plus more: an unfinished run goes on where it stopped, any other run
      ends as before. */
  lemma {:induction false} DecodeSplit(p: Props, d: Dec, a: seq<byte>, b: seq<byte>, limit: nat, fin: FinishMode)
    requires DecOk(p, d) && Settled(d, limit)
    ensures Decode(p, d, a + b, limit, fin) == Resume(p, Decode(p, d, a, limit, fin), a, b, limit, fin)
    decreases limit - |d.out|, if d.remainLen == SPEC_LEN_START then 0 else 1, 1
  {
    if Going(d, limit, fin) {
      if Symbol(p, d, a).Some? {
        GoSplit(p, d, a, b, limit, fin);
      } else {
        assert a[0..] == a;
      }
    }
  }

  lemma {:induction false} GoSplit(p: Props, d: Dec, a: seq<byte>, b: seq<byte>, limit: nat, fin: FinishMode)
    requires DecOk(p, d) && |d.out| <= limit && d.remainLen == 0 && Symbol(p, d, a).Some?
    ensures Go(p, d, a + b, limit, fin) == Resume(p, Go(p, d, a, limit, fin), a, b, limit, fin)
    decreases limit - |d.out|, 1, 0
  {
    RunExtends(CtxOf(p, d), StartOf(d, 0), a, b, true);
    StepKeepsOk(p, d, a, limit);
    GoStep(p, d, a, limit, fin);
    GoStep(p, d, a + b, limit, fin);
    var m := Symbol(p, d, a).value;
    var d' := StepSym(p, d, m, limit);
    var n := m.coder.pos;
    if d'.Some? {
      DecodeSplit(p, d'.value, a[n..], b, limit, fin);
      ResumeAfter(p, n, Decode(p, d'.value, a[n..], limit, fin), a, b, limit, fin);
      assert (a + b)[n..] == a[n..] + b;
    }
  }

  // ---- What a stopped run looks like ----

  /** A run that wants more input is in the middle of a symbol; any other stopped run
      would stop again at once, whatever input came next. */
  lemma {:induction false} StoppedDecode(p: Props, d: Dec, inp: seq<byte>, next: seq<byte>, limit: nat, fin: FinishMode)
    requires DecOk(p, d) && Settled(d, limit) && Decode(p, d, inp, limit, fin).Stopped?
    ensures StopsWell(p, Decode(p, d, inp, limit, fin), inp, next, limit, fin)
    decreases limit - |d.out|, if d.remainLen == SPEC_LEN_START then 0 else 1, 1
  {
    if Going(d, limit, fin) {
      if Symbol(p, d, inp).Some? {
        StoppedGo(p, d, inp, next, limit, fin);
      } else {
        assert inp[0..] == inp;
      }
    }
  }

  lemma {:induction false} StoppedGo(p: Props, d: Dec, inp: seq<byte>, next: seq<byte>, limit: nat, fin: FinishMode)
    requires DecOk(p, d) && |d.out| <= limit && d.remainLen == 0 && Symbol(p, d, inp).Some? &&
             Go(p, d, inp, limit, fin).Stopped?
    ensures StopsWell(p, Go(p, d, inp, limit, fin), inp, next, limit, fin)
    decreases limit - |d.out|, 1, 0
  {
    GoStep(p, d, inp, limit, fin);
    StepKeepsOk(p, d, inp, limit);
    var m := Symbol(p, d, inp).value;
    var d' := StepSym(p, d, m, limit).value;
    var n := m.coder.pos;
    StoppedDecode(p, d', inp[n..], next, limit, fin);
    StopsLater(p, n, Decode(p, d', inp[n..], limit, fin), inp, next, limit, fin);
  }

  ghost predicate StopsWell(p: Props, o: Outcome, inp: seq<byte>, next: seq<byte>, limit: nat, fin: FinishMode)
  {
    o.Stopped? && DecOk(p, o.dec) && Settled(o.dec, limit) && o.used <= |inp| &&
    if o.status.NeedsMoreInput? then Going(o.dec, limit, fin) && Symbol(p, o.dec, inp[o.used..]).None?
    else Decode(p, o.dec, next, limit, fin) == Stopped(o.status, o.dec, 0)
  }

  lemma StopsLater(p: Props, n: nat, o: Outcome, inp: seq<byte>, next: seq<byte>, limit: nat, fin: FinishMode)
    requires n <= |inp| && StopsWell(p, o, inp[n..], next, limit, fin)
    ensures StopsWell(p, After(n, o), inp, next, limit, fin)
  {
    SliceSlice(inp, n, o.used);
  }

  /** What a status says about the decoder it comes with; no two of them can be confused. */
  predicate StatusFits(status: Status, d: Dec, limit: nat, fin: FinishMode)
  {
    var full := |d.out| == limit;
    match status
    case FinishedWithMark => d.remainLen == SPEC_LEN_START && d.code == 0
    case MaybeFinishedWithoutMark => full && d.remainLen == 0 && d.code == 0
    case NotFinished => full && fin.FinishAny? &&
                        (0 < d.remainLen < SPEC_LEN_START || (d.remainLen == 0 && d.code != 0))
    case NeedsMoreInput => d.remainLen == 0 && (!full || (fin.FinishEnd? && d.code != 0))
    case NotSpecified => false
  }

  lemma {:induction false} StatusMeans(p: Props, d: Dec, inp: seq<byte>, limit: nat, fin: FinishMode)
    requires DecOk(p, d) && Settled(d, limit) && Decode(p, d, inp, limit, fin).Stopped?
    ensures var o := Decode(p, d, inp, limit, fin); StatusFits(o.status, o.dec, limit, fin)
    decreases limit - |d.out|, if d.remainLen == SPEC_LEN_START then 0 else 1
  {
    if Going(d, limit, fin) && Symbol(p, d, inp).Some? {
      GoStep(p, d, inp, limit, fin);
      StepKeepsOk(p, d, inp, limit);
      var m := Symbol(p, d, inp).value;
      StatusMeans(p, StepSym(p, d, m, limit).value, inp[m.coder.pos..], limit, fin);
    } else {
      StopsAtOnce(p, d, inp, limit, fin);
    }
  }

  lemma StopsAtOnce(p: Props, d: Dec, inp: seq<byte>, limit: nat, fin: FinishMode)
    requires DecOk(p, d) && Settled(d, limit) && !(Going(d, limit, fin) && Symbol(p, d, inp).Some?)
    ensures var o := Decode(p, d, inp, limit, fin); o.Stopped? ==> StatusFits(o.status, o.dec, limit, fin)
  {
  }

  lemma SliceSlice(s: seq<byte>, m: nat, n: nat)
    requires m + n <= |s|
    ensures s[m..][n..] == s[m + n..]
  {
  }

  /** The carry is shorter than the longest symbol. */
  lemma IncompleteIsShort(p: Props, d: Dec, inp: seq<byte>)
    requires DecOk(p, d) && Symbol(p, d, inp).None?
    ensures |inp| < REQUIRED_INPUT_MAX
  {
    if |inp| >= REQUIRED_INPUT_MAX {
      TwentyBytesSuffice(CtxOf(p, d), d.probs, Coder(d.range, d.code, 0), inp, true);
    }
  }

  /** A symbol that the carry did not complete uses up all of the carry. */
  lemma CarryIsUsed(p: Props, d: Dec, c: seq<byte>, b: seq<byte>, limit: nat, fin: FinishMode)
    requires DecOk(p, d) && Settled(d, limit) && Going(d, limit, fin) && Symbol(p, d, c).None?
    ensures var o := Decode(p, d, c + b, limit, fin);
            o.Stopped? && !o.status.NeedsMoreInput? ==> |c| <= o.used
  {
    if Symbol(p, d, c + b).Some? {
      GoStep(p, d, c + b, limit, fin);
      assert (c + b)[..|c|] == c;
      RunOnPrefix(CtxOf(p, d), StartOf(d, 0), c + b, |c|, true);
    }
  }

  // ---- Splitting a call ----

  function Plus(n: nat, r: CallResult): CallResult
  {
    match r
    case CallFailed => CallFailed
    case CallOk(s, m, c) => CallOk(s, m, n + c)
  }

  /** The run behind a call, on all the input seen so far. */
  function Whole(p: Props, m: Machine, inp: seq<byte>, limit: nat, fin: FinishMode): (o: Outcome)
    requires MachineOk(p, m) && Limit(m) <= limit
    requires m.Starting? ==> |inp| >= INIT_SIZE
    ensures o.Stopped? ==> DecOk(p, o.dec) && Settled(o.dec, limit) && o.used <= |inp|
  {
    match m
    case Starting(_) => StartDecOk(p, inp); After(INIT_SIZE, Decode(p, StartDec(p, inp), inp[INIT_SIZE..], limit, fin))
    case Running(d, _) => WriteRemOk(p, d, limit); Decode(p, WriteRem(d, limit), inp, limit, fin)
  }

  predicate StillStarting(m: Machine, inp: seq<byte>)
  {
    m.Starting? && ((|inp| > 0 && inp[0] != 0) || |inp| < INIT_SIZE)
  }

  lemma CallIsWhole(p: Props, m: Machine, src: seq<byte>, limit: nat, fin: FinishMode)
    requires MachineOk(p, m) && Limit(m) <= limit && !StillStarting(m, m.carry + src)
    ensures Call(p, m, src, limit, fin) == Close(Whole(p, m, m.carry + src, limit, fin), m.carry + src, |m.carry|)
  {
  }

  lemma WholeSplit(p: Props, m: Machine, a: seq<byte>, b: seq<byte>, limit: nat, fin: FinishMode)
    requires MachineOk(p, m) && Limit(m) <= limit && (m.Starting? ==> |a| >= INIT_SIZE)
    ensures Whole(p, m, a + b, limit, fin) == Resume(p, Whole(p, m, a, limit, fin), a, b, limit, fin)
  {
    match m
    case Starting(_) =>
      var d := StartDec(p, a);
      StartDecOk(p, a);
      assert StartDec(p, a + b) == d;
      assert (a + b)[INIT_SIZE..] == a[INIT_SIZE..] + b;
      DecodeSplit(p, d, a[INIT_SIZE..], b, limit, fin);
      ResumeAfter(p, INIT_SIZE, Decode(p, d, a[INIT_SIZE..], limit, fin), a, b, limit, fin);
    case Running(d, _) =>
      WriteRemOk(p, d, limit);
      DecodeSplit(p, WriteRem(d, limit), a, b, limit, fin);
  }

  lemma StoppedWhole(p: Props, m: Machine, inp: seq<byte>, next: seq<byte>, limit: nat, fin: FinishMode)
    requires MachineOk(p, m) && Limit(m) <= limit && (m.Starting? ==> |inp| >= INIT_SIZE)
    requires Whole(p, m, inp, limit, fin).Stopped?
    ensures var o := Whole(p, m, inp, limit, fin);
            if o.status.NeedsMoreInput? then Going(o.dec, limit, fin) && Symbol(p, o.dec, inp[o.used..]).None?
            else Decode(p, o.dec, next, limit, fin) == Stopped(o.status, o.dec, 0)
  {
    match m
    case Starting(_) =>
      var d := StartDec(p, inp);
      StartDecOk(p, inp);
      StoppedDecode(p, d, inp[INIT_SIZE..], next, limit, fin);
      var o := Decode(p, d, inp[INIT_SIZE..], limit, fin);
      assert inp[INIT_SIZE..][o.used..] == inp[INIT_SIZE + o.used..];
    case Running(d, _) =>
      WriteRemOk(p, d, limit);
      StoppedDecode(p, WriteRem(d, limit), inp, next, limit, fin);
  }

  /** Calls leave a machine that can be called again with the same limit. */
  lemma CallKeepsOk(p: Props, m: Machine, src: seq<byte>, limit: nat, fin: FinishMode)
    requires MachineOk(p, m) && Limit(m) <= limit && Call(p, m, src, limit, fin).CallOk?
    ensures var m' := Call(p, m, src, limit, fin).machine; MachineOk(p, m') && Limit(m') <= limit
  {
    if !StillStarting(m, m.carry + src) {
      CallIsWhole(p, m, src, limit, fin);
      CloseKeepsOk(p, m, src, limit, fin);
    }
  }

  lemma CloseKeepsOk(p: Props, m: Machine, src: seq<byte>, limit: nat, fin: FinishMode)
    requires MachineOk(p, m) && Limit(m) <= limit && !StillStarting(m, m.carry + src) &&
             Whole(p, m, m.carry + src, limit, fin).Stopped?
    ensures var m' := Close(Whole(p, m, m.carry + src, limit, fin), m.carry + src, |m.carry|).machine;
            MachineOk(p, m') && Limit(m') <= limit
  {
    var inp := m.carry + src;
    var o := Whole(p, m, inp, limit, fin);
    if o.status.NeedsMoreInput? {
      StoppedWhole(p, m, inp, [], limit, fin);
      IncompleteIsShort(p, o.dec, inp[o.used..]);
    } else if o.used < |m.carry| {
      KeptCarry(p, m, src, limit, fin);
    }
  }

  /** A call that stops without touching a non-empty carry changed nothing. */
  lemma KeptCarry(p: Props, m: Machine, src: seq<byte>, limit: nat, fin: FinishMode)
    requires MachineOk(p, m) && Limit(m) <= limit && !StillStarting(m, m.carry + src)
    requires var o := Whole(p, m, m.carry + src, limit, fin);
             o.Stopped? && !o.status.NeedsMoreInput? && o.used < |m.carry|
    ensures m.Running? && Whole(p, m, m.carry + src, limit, fin).dec == m.dec && (m.carry + src)[..|m.carry|] == m.carry
  {
    if m.Running? {
      WriteRemOk(p, m.dec, limit);
      if Going(m.dec, limit, fin) { CarryIsUsed(p, m.dec, m.carry, src, limit, fin); }
    }
  }

  /** A call on a + b is a call on a followed by a call on b. */
  lemma CallSplit(p: Props, m: Machine, a: seq<byte>, b: seq<byte>, limit: nat, fin: FinishMode)
    requires MachineOk(p, m) && Limit(m) <= limit
    ensures var r := Call(p, m, a, limit, fin);
            if r.CallFailed? then Call(p, m, a + b, limit, fin) == r
            else MachineOk(p, r.machine) && Limit(r.machine) <= limit &&
                 Call(p, m, a + b, limit, fin) == Plus(r.consumed, Call(p, r.machine, b, limit, fin))
  {
    var inp := m.carry + a;
    assert m.carry + (a + b) == inp + b;
    if Call(p, m, a, limit, fin).CallOk? { CallKeepsOk(p, m, a, limit, fin); }
    if StillStarting(m, inp) {
      if Call(p, m, a, limit, fin).CallOk? { StartingSplit(p, m, a, b, limit, fin); }
    } else {
      RunningSplit(p, m, a, b, limit, fin);
    }
  }

  lemma StartingSplit(p: Props, m: Machine, a: seq<byte>, b: seq<byte>, limit: nat, fin: FinishMode)
    requires MachineOk(p, m) && StillStarting(m, m.carry + a) && Call(p, m, a, limit, fin).CallOk?
    requires MachineOk(p, Starting(m.carry + a))
    ensures Call(p, m, a + b, limit, fin) == Plus(|a|, Call(p, Starting(m.carry + a), b, limit, fin))
  {
    var m' := Starting(m.carry + a);
    assert m.carry + (a + b) == m'.carry + b;
    if !StillStarting(m', m'.carry + b) {
      LaterStart(p, m, m', a + b, b, limit, fin);
    }
  }

  /** Two machines that have not started decode the same bytes alike. */
  lemma LaterStart(p: Props, m: Machine, m': Machine, ab: seq<byte>, b: seq<byte>, limit: nat, fin: FinishMode)
    requires MachineOk(p, m) && MachineOk(p, m') && m.Starting? && m'.Starting? && m.carry + ab == m'.carry + b &&
             |m.carry| <= |m'.carry| <= INIT_SIZE
    requires !StillStarting(m', m'.carry + b)
    ensures Call(p, m, ab, limit, fin) == Plus(|m'.carry| - |m.carry|, Call(p, m', b, limit, fin))
  {
    CallIsWhole(p, m, ab, limit, fin);
    CallIsWhole(p, m', b, limit, fin);
    CloseLater(Whole(p, m', m'.carry + b, limit, fin), m'.carry + b, |m.carry|, |m'.carry|);
  }

  lemma CloseLater(o: Outcome, inp: seq<byte>, c: nat, c': nat)
    requires c <= c' <= |inp| && (o.Stopped? ==> c' <= o.used <= |inp|)
    ensures Close(o, inp, c) == Plus(c' - c, Close(o, inp, c'))
  {
  }

  lemma RunningSplit(p: Props, m: Machine, a: seq<byte>, b: seq<byte>, limit: nat, fin: FinishMode)
    requires MachineOk(p, m) && Limit(m) <= limit && !StillStarting(m, m.carry + a)
    requires var r := Call(p, m, a, limit, fin); r.CallOk? ==> MachineOk(p, r.machine) && Limit(r.machine) <= limit
    ensures var r := Call(p, m, a, limit, fin);
            Call(p, m, a + b, limit, fin) ==
            if r.CallFailed? then r else Plus(r.consumed, Call(p, r.machine, b, limit, fin))
  {
    var inp := m.carry + a;
    assert m.carry + (a + b) == inp + b;
    CallIsWhole(p, m, a, limit, fin);
    CallIsWhole(p, m, a + b, limit, fin);
    WholeSplit(p, m, inp, b, limit, fin);
    var o := Whole(p, m, inp, limit, fin);
    if o.Stopped? {
      if o.status.NeedsMoreInput? {
        StoppedWhole(p, m, inp, [], limit, fin);
        ResumedCall(p, o, inp, b, |m.carry|, limit, fin);
      } else {
        StoppedWhole(p, m, inp, Call(p, m, a, limit, fin).machine.carry + b, limit, fin);
        StoppedCall(p, o, inp, b, |m.carry|, limit, fin);
      }
    }
  }

  lemma StoppedCall(p: Props, o: Outcome, inp: seq<byte>, b: seq<byte>, carried: nat, limit: nat, fin: FinishMode)
    requires o.Stopped? && !o.status.NeedsMoreInput? && o.used <= |inp| && carried <= |inp|
    requires DecOk(p, o.dec) && Settled(o.dec, limit)
    requires var r := Close(o, inp, carried);
             MachineOk(p, r.machine) && Decode(p, o.dec, r.machine.carry + b, limit, fin) == Stopped(o.status, o.dec, 0)
    ensures var r := Close(o, inp, carried);
            Close(o, inp + b, carried) == r == Plus(r.consumed, Call(p, r.machine, b, limit, fin))
  {
    WriteRemOk(p, o.dec, limit);
    var r := Close(o, inp, carried);
    assert (inp + b)[..carried] == inp[..carried];
    assert (r.machine.carry + b)[..|r.machine.carry|] == r.machine.carry;
  }

  lemma ResumedCall(p: Props, o: Outcome, inp: seq<byte>, b: seq<byte>, carried: nat, limit: nat, fin: FinishMode)
    requires o.Stopped? && o.status.NeedsMoreInput? && o.used <= |inp| && carried <= |inp|
    requires DecOk(p, o.dec) && Settled(o.dec, limit) && Going(o.dec, limit, fin) &&
             Symbol(p, o.dec, inp[o.used..]).None?
    requires MachineOk(p, Running(o.dec, inp[o.used..]))
    ensures Close(Resume(p, o, inp, b, limit, fin), inp + b, carried) ==
            Plus(|inp| - carried, Call(p, Running(o.dec, inp[o.used..]), b, limit, fin))
  {
    var c := inp[o.used..];
    WriteRemOk(p, o.dec, limit);
    CallIsWhole(p, Running(o.dec, c), b, limit, fin);
    CarryIsUsed(p, o.dec, c, b, limit, fin);
    CloseAfter(o.used, Decode(p, o.dec, c + b, limit, fin), inp, b, carried);
  }

  lemma CloseAfter(n: nat, o: Outcome, inp: seq<byte>, b: seq<byte>, carried: nat)
    requires n <= |inp| && carried <= |inp|
    requires o.Stopped? ==> o.used <= |inp| - n + |b| && (o.status.NeedsMoreInput? || |inp| - n <= o.used)
    ensures Close(After(n, o), inp + b, carried) == Plus(|inp| - carried, Close(o, inp[n..] + b, |inp| - n))
  {
    if o.Stopped? { assert (inp + b)[n + o.used..] == (inp[n..] + b)[o.used..]; }
  }

  // ---- Any number of chunks ----

  function Concat(chunks: seq<seq<byte>>): seq<byte>
  {
    if |chunks| == 0 then [] else chunks[0] + Concat(chunks[1..])
  }

  /** Successive calls, one per chunk, adding up the bytes consumed. */
  function Feed(p: Props, m: Machine, chunks: seq<seq<byte>>, limit: nat, fin: FinishMode): CallResult
    requires MachineOk(p, m) && Limit(m) <= limit && |chunks| > 0
    decreases |chunks|
  {
    var r := Call(p, m, chunks[0], limit, fin);
    if |chunks| == 1 || r.CallFailed? then r
    else
      CallKeepsOk(p, m, chunks[0], limit, fin);
      Plus(r.consumed, Feed(p, r.machine, chunks[1..], limit, fin))
  }

  /** Streaming equals one-shot: same status, dictionary, decoder state, carry buffer and
      number of bytes consumed, however the input is cut; and failure likewise. */
  lemma {:induction false} StreamingIsOneShot(p: Props, m: Machine, chunks: seq<seq<byte>>, limit: nat, fin: FinishMode)
    requires MachineOk(p, m) && Limit(m) <= limit && |chunks| > 0
    ensures Feed(p, m, chunks, limit, fin) == Call(p, m, Concat(chunks), limit, fin)
    decreases |chunks|
  {
    var a, b := chunks[0], Concat(chunks[1..]);
    if |chunks| == 1 {
      assert Concat(chunks) == a;
    } else {
      CallSplit(p, m, a, b, limit, fin);
      var r := Call(p, m, a, limit, fin);
      if r.CallOk? { StreamingIsOneShot(p, r.machine, chunks[1..], limit, fin); }
    }
  }

  /** How many bytes the next symbol takes: at most twenty, and exactly the prefixes shorter
      than that are incomplete. */
  lemma SymbolLength(p: Props, d: Dec, inp: seq<byte>, k: nat)
    requires DecOk(p, d) && REQUIRED_INPUT_MAX <= |inp| && k <= |inp|
    ensures Symbol(p, d, inp).Some?
    ensures var n := Symbol(p, d, inp).value.coder.pos;
            n <= REQUIRED_INPUT_MAX && Symbol(p, d, inp[..k]) == if k < n then None else Symbol(p, d, inp)
  {
    TwentyBytesSuffice(CtxOf(p, d), d.probs, Coder(d.range, d.code, 0), inp, true);
    RunOnPrefix(CtxOf(p, d), StartOf(d, 0), inp, k, true);
  }
}
