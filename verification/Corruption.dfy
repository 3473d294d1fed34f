/** Which streams are refused, in terms of their symbols. */
module Corruption {
  import opened Words
  import opened RangeCoder
  import opened Symbols
  import opened SymbolRun
  import opened Dictionary
  import opened Decoder
  import opened Streaming
  import opened Expansion

  /** The symbol may not come next: it repeats or copies what is not there, or there is no room
      for anything but the end mark. */
  predicate Fault(p: Props, z: Lz, s: Sym, limit: nat)
  {
    ((s.Rep? || s.ShortRep?) && z.out == []) ||
    (s.Match? && (s.dist >= |z.out| || s.dist >= p.dicSize)) ||
    (!s.EndMark? && |z.out| == limit)
  }

  /** No symbol of the list is at fault where it stands. */
  predicate FaultFree(p: Props, z: Lz, ss: seq<Sym>, limit: nat)
    requires SymsOk(ss)
    decreases |ss|
  {
    |ss| == 0 || (!Fault(p, z, ss[0], limit) && FaultFree(p, PlaySym(z, ss[0]), ss[1..], limit))
  }

  predicate Ended(ss: seq<Sym>) { |ss| > 0 && ss[|ss| - 1].EndMark? }

  /** A decoded symbol is refused exactly when it is at fault. */
  lemma StepFailsExactly(p: Props, d: Dec, inp: seq<byte>, limit: nat)
    requires DecOk(p, d) && d.remainLen == 0 && |d.out| <= limit && Symbol(p, d, inp).Some?
    ensures var m := Symbol(p, d, inp).value;
            StepSym(p, d, m, limit).None? <==> Fault(p, Unlimited(d), m.phase.sym, limit)
  {
    if |d.out| == 0 { BadRepCodeIsRep(p, d, inp); }
  }

  /** A run fails exactly when one of its symbols is at fault, or when a copy that the limit cuts
      should have ended there; after an end mark, when the range coder is not at its end. */
  lemma {:induction false} FailsExactly(p: Props, d: Dec, inp: seq<byte>, limit: nat, fin: FinishMode)
    requires DecOk(p, d) && Settled(d, limit)
    ensures var ss := SymbolsOf(p, d, inp, limit, fin); var o := Decode(p, d, inp, limit, fin);
            if d.remainLen == SPEC_LEN_START then o.Failed? <==> d.code != 0
            else if Ended(ss) then o.Failed? || (o.status.FinishedWithMark? && o.dec.code == 0)
            else o.Failed? <==> !FaultFree(p, Unlimited(d), ss, limit) ||
                                (fin.FinishEnd? && |Play(Unlimited(d), ss).out| > limit)
    decreases limit - |d.out|, if d.remainLen == SPEC_LEN_START then 0 else 1
  {
    if Going(d, limit, fin) && Symbol(p, d, inp).Some? {
      var m := Symbol(p, d, inp).value;
      GoStep(p, d, inp, limit, fin);
      StepFailsExactly(p, d, inp, limit);
      StepPlays(p, d, m, limit);
      StepKeepsOk(p, d, inp, limit);
      var d' := StepSym(p, d, m, limit);
      if d'.Some? {
        FailsExactly(p, d'.value, inp[m.coder.pos..], limit, fin);
        var rest := SymbolsOf(p, d'.value, inp[m.coder.pos..], limit, fin);
        Consed(p, Unlimited(d), m.phase.sym, rest, limit);
      }
    }
  }

  lemma Consed(p: Props, z: Lz, s: Sym, ss: seq<Sym>, limit: nat)
    requires SymOk(s) && SymsOk(ss)
    ensures SymsOk([s] + ss) && Ended([s] + ss) == if ss == [] then s.EndMark? else Ended(ss)
    ensures Play(z, [s] + ss) == Play(PlaySym(z, s), ss)
    ensures FaultFree(p, z, [s] + ss, limit) <==> !Fault(p, z, s, limit) && FaultFree(p, PlaySym(z, s), ss, limit)
  {
    assert ([s] + ss)[1..] == ss;
  }
}
