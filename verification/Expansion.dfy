/** The output of a run is the LZ77 expansion of its symbols, cut at the limit. The
    expansion knows nothing of probabilities, of limits or of interrupted copies. */
module Expansion {
  import opened Words
  import opened Symbols
  import opened SymbolRun
  import opened Dictionary
  import opened Decoder
  import opened Streaming

  datatype Lz = Lz(out: seq<byte>, reps: Reps)

  function PlaySym(z: Lz, s: Sym): Lz
    requires SymOk(s)
  {
    match s
    case Lit(b) => z.(out := z.out + [b])
    case ShortRep => z.(out := Expand(z.out, z.reps.r0, 1))
    case Rep(w, len) => var r := PickRep(z.reps, w); Lz(Expand(z.out, r.r0, len + 2), r)
    case Match(dist, len) =>
      Lz(Expand(z.out, dist + 1, len + 2), Reps(dist + 1, z.reps.r0, z.reps.r1, z.reps.r2))
    case EndMark => z
  }

  predicate SymsOk(ss: seq<Sym>) { forall i :: 0 <= i < |ss| ==> SymOk(ss[i]) }

  function Play(z: Lz, ss: seq<Sym>): Lz
    requires SymsOk(ss)
    decreases |ss|
  {
    if |ss| == 0 then z else Play(PlaySym(z, ss[0]), ss[1..])
  }

  /** The symbols a run decodes, in order. */
  function SymbolsOf(p: Props, d: Dec, inp: seq<byte>, limit: nat, fin: FinishMode): (ss: seq<Sym>)
    requires DecOk(p, d) && Settled(d, limit)
    ensures SymsOk(ss)
    decreases limit - |d.out|, if d.remainLen == SPEC_LEN_START then 0 else 1
  {
    if !Going(d, limit, fin) || Symbol(p, d, inp).None? then []
    else
      var m := Symbol(p, d, inp).value;
      StepKeepsOk(p, d, inp, limit);
      match StepSym(p, d, m, limit)
      case None => [m.phase.sym]
      case Some(d') => [m.phase.sym] + SymbolsOf(p, d', inp[m.coder.pos..], limit, fin)
  }

  function Pending(d: Dec): nat { if d.remainLen < SPEC_LEN_START then d.remainLen else 0 }

  /** What the output would be without a limit. */
  function Unlimited(d: Dec): Lz { Lz(Expand(d.out, d.reps.r0, Pending(d)), d.reps) }

  lemma StepPlays(p: Props, d: Dec, m: Micro, limit: nat)
    requires DecOk(p, d) && d.remainLen == 0 && m.phase.Done? && SymOk(m.phase.sym) && |d.out| <= limit
    ensures var r := StepSym(p, d, m, limit); r.Some? ==> Unlimited(r.value) == PlaySym(Unlimited(d), m.phase.sym)
  {
    ApplyPlays(p, WithCoder(d, m), m.phase.sym, limit);
  }

  lemma ApplyPlays(p: Props, d: Dec, s: Sym, limit: nat)
    requires d.remainLen == 0 && SymOk(s) && |d.out| <= limit
    ensures var r := ApplySym(p, d, s, limit); r.Some? ==> Unlimited(r.value) == PlaySym(Unlimited(d), s)
  {
    if s.Rep? || s.Match? { CopiedPlays(p, d, s, limit); } else { WrittenPlays(p, d, s, limit); }
  }

  lemma CopiedPlays(p: Props, d: Dec, s: Sym, limit: nat)
    requires d.remainLen == 0 && SymOk(s) && |d.out| <= limit && (s.Rep? || s.Match?)
    ensures var r := ApplySym(p, d, s, limit); r.Some? ==> Unlimited(r.value) == PlaySym(Unlimited(d), s)
  {
    CopyPlays(Turn(d, s), s.len + 2, limit);
  }

  lemma WrittenPlays(p: Props, d: Dec, s: Sym, limit: nat)
    requires d.remainLen == 0 && SymOk(s) && |d.out| <= limit && (s.Lit? || s.ShortRep? || s.EndMark?)
    ensures var r := ApplySym(p, d, s, limit); r.Some? ==> Unlimited(r.value) == PlaySym(Unlimited(d), s)
  {
  }

  /** A copy cut at the limit still owes the rest of the same expansion. */
  lemma CopyPlays(d: Dec, len: nat, limit: nat)
    requires |d.out| <= limit && len < SPEC_LEN_START
    ensures Unlimited(Copy(d, len, limit)) == Lz(Expand(d.out, d.reps.r0, len), d.reps)
  {
    var n := Min(len, limit - |d.out|);
    ExpandAdd(d.out, d.reps.r0, n, len - n);
  }

  lemma {:induction false} RunPlays(p: Props, d: Dec, inp: seq<byte>, limit: nat, fin: FinishMode)
    requires DecOk(p, d) && Settled(d, limit) && Decode(p, d, inp, limit, fin).Stopped?
    ensures Unlimited(Decode(p, d, inp, limit, fin).dec) == Play(Unlimited(d), SymbolsOf(p, d, inp, limit, fin))
    decreases limit - |d.out|, if d.remainLen == SPEC_LEN_START then 0 else 1
  {
    if Going(d, limit, fin) && Symbol(p, d, inp).Some? {
      GoStep(p, d, inp, limit, fin);
      StepKeepsOk(p, d, inp, limit);
      var m := Symbol(p, d, inp).value;
      var d' := StepSym(p, d, m, limit).value;
      StepPlays(p, d, m, limit);
      RunPlays(p, d', inp[m.coder.pos..], limit, fin);
      PlayCons(Unlimited(d), m.phase.sym, SymbolsOf(p, d', inp[m.coder.pos..], limit, fin));
    }
  }

  lemma PlayCons(z: Lz, s: Sym, ss: seq<Sym>)
    requires SymOk(s) && SymsOk(ss)
    ensures Play(z, [s] + ss) == Play(PlaySym(z, s), ss)
  {
    assert ([s] + ss)[1..] == ss;
  }

  /** A run that is not in error leaves exactly the expansion of the decoded symbols, cut
      at the limit, and the bytes cut off are the ones it still owes. */
  lemma OutputIsExpansion(p: Props, d: Dec, inp: seq<byte>, limit: nat, fin: FinishMode)
    requires DecOk(p, d) && Settled(d, limit) && d.remainLen == 0 && Decode(p, d, inp, limit, fin).Stopped?
    ensures var d' := Decode(p, d, inp, limit, fin).dec;
            var z := Play(Lz(d.out, d.reps), SymbolsOf(p, d, inp, limit, fin));
            d'.out == z.out[..Min(limit, |z.out|)] && d'.reps == z.reps && |z.out| == |d'.out| + Pending(d')
  {
    RunPlays(p, d, inp, limit, fin);
  }

  /** The naive expansion of a whole stream's symbols from an empty dictionary, cut at the limit. */
  function CutExpansion(p: Props, src: seq<byte>, limit: nat, fin: FinishMode): seq<byte>
    requires PropsOk(p) && |src| >= INIT_SIZE
  {
    StartDecOk(p, src);
    var z := Play(Lz([], Reps(1, 1, 1, 1)), SymbolsOf(p, StartDec(p, src), src[INIT_SIZE..], limit, fin));
    z.out[..Min(limit, |z.out|)]
  }

  /** The one-call use: the bytes written are that expansion. */
  lemma OneCallIsExpansion(p: Props, src: seq<byte>, limit: nat, fin: FinishMode)
    requires PropsOk(p) && |src| >= INIT_SIZE && Call(p, Starting([]), src, limit, fin).CallOk?
    ensures var d := Call(p, Starting([]), src, limit, fin).machine.dec;
            DecOk(p, d) && d.out == CutExpansion(p, src, limit, fin)
  {
    assert [] + src == src;
    StartDecOk(p, src);
    OutputIsExpansion(p, StartDec(p, src), src[INIT_SIZE..], limit, fin);
  }
}
