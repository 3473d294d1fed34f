/** The direct bits of one distance, in the branch-free form and in the compare-and-subtract
    form, each bit with its NORMALIZE. */
module DirectBits {
  import opened Words
  import opened RangeCoder

  datatype Form = BranchFree | Plain

  function Bit(f: Form, k: Coder): bool { if f.Plain? then PlainRawBit(k) else RawBit(k) }

  function After(f: Form, k: Coder): Coder { if f.Plain? then AfterPlainRaw(k) else AfterRaw(k) }

  /** The first n bits and the coder after them; None when the input runs out. */
  function Run(f: Form, c: Coder, inp: seq<byte>, n: nat): Option<(seq<bool>, Coder)>
  {
    if n == 0 then Some(([], c))
    else
      var (bits, k) :- Run(f, c, inp, n - 1);
      var m :- Normalize(k, inp);
      Some((bits + [Bit(f, m)], After(f, m)))
  }

  /** The coder that bit n finds, after its NORMALIZE. */
  function Found(c: Coder, inp: seq<byte>, n: nat): Option<Coder>
  {
    var (_, k) :- Run(BranchFree, c, inp, n);
    Normalize(k, inp)
  }

  lemma {:induction false} RunKeepsOk(c: Coder, inp: seq<byte>, n: nat)
    requires CoderOk(c)
    ensures Run(BranchFree, c, inp, n).Some? ==> CoderOk(Run(BranchFree, c, inp, n).value.1)
    ensures Found(c, inp, n).Some? ==> CoderOk(Found(c, inp, n).value) && TOP <= Found(c, inp, n).value.range
  {
    if n > 0 {
      RunKeepsOk(c, inp, n - 1);
      if Found(c, inp, n - 1).Some? { RawKeeps(Found(c, inp, n - 1).value); }
    }
  }

  /** The bound under which bit n is the same in both forms, where there is a bit n. */
  predicate BoundAt(c: Coder, inp: seq<byte>, n: nat)
  {
    var m := Found(c, inp, n);
    m.Some? ==> m.value.code < m.value.range / 2 + 0x8000_0000
  }

  ghost predicate BoundUpTo(c: Coder, inp: seq<byte>, n: nat) { forall i: nat | i < n :: BoundAt(c, inp, i) }

  ghost predicate SameUpTo(c: Coder, inp: seq<byte>, n: nat)
  {
    forall i: nat | i <= n :: Run(BranchFree, c, inp, i) == Run(Plain, c, inp, i)
  }

  /** The two forms decode n bits alike, registers and all, if and only if each of the bits finds
      its coder under the bound. */
  lemma {:induction false} FormsAgree(c: Coder, inp: seq<byte>, n: nat)
    requires CoderOk(c)
    ensures SameUpTo(c, inp, n) <==> BoundUpTo(c, inp, n)
  {
    if n > 0 {
      FormsAgree(c, inp, n - 1);
      RunKeepsOk(c, inp, n - 1);
      assert SameUpTo(c, inp, n) <==> SameUpTo(c, inp, n - 1) && Run(BranchFree, c, inp, n) == Run(Plain, c, inp, n);
      assert BoundUpTo(c, inp, n) <==> BoundUpTo(c, inp, n - 1) && BoundAt(c, inp, n - 1);
      if SameUpTo(c, inp, n - 1) { OneMoreBit(c, inp, n - 1); }
    }
  }

  lemma OneMoreBit(c: Coder, inp: seq<byte>, n: nat)
    requires Run(BranchFree, c, inp, n) == Run(Plain, c, inp, n) &&
             (Found(c, inp, n).Some? ==> CoderOk(Found(c, inp, n).value))
    ensures Run(BranchFree, c, inp, n + 1) == Run(Plain, c, inp, n + 1) <==> BoundAt(c, inp, n)
  {
    var m := Found(c, inp, n);
    if m.Some? {
      RawIsPlain(m.value);
      var bits := Run(BranchFree, c, inp, n).value.0;
      assert (bits + [RawBit(m.value)])[|bits|] == RawBit(m.value) &&
          (bits + [PlainRawBit(m.value)])[|bits|] == PlainRawBit(m.value);
    }
  }

  /** Bit n leaves code < range. */
  predicate StrictAt(c: Coder, inp: seq<byte>, n: nat)
  {
    var m := Found(c, inp, n);
    m.Some? ==> m.value.range % 2 == 0 || m.value.code + 1 < m.value.range
  }

  lemma {:induction false} StaysBelow(c: Coder, inp: seq<byte>, n: nat)
    requires CoderOk(c) && c.code < c.range && forall i: nat | i < n :: StrictAt(c, inp, i)
    ensures Found(c, inp, n).Some? ==> Found(c, inp, n).value.code < Found(c, inp, n).value.range
  {
    if n > 0 {
      StaysBelow(c, inp, n - 1);
      RunKeepsOk(c, inp, n - 1);
      assert StrictAt(c, inp, n - 1);
      if Found(c, inp, n - 1).Some? { RawKeepsStrictly(Found(c, inp, n - 1).value); }
    }
  }

  /** So they do as long as every bit but the last keeps code < range. */
  lemma StrictBitsAgree(c: Coder, inp: seq<byte>, n: nat)
    requires CoderOk(c) && c.code < c.range && forall i: nat | i < n :: StrictAt(c, inp, i)
    ensures SameUpTo(c, inp, n + 1)
  {
    forall i: nat | i <= n ensures BoundAt(c, inp, i) {
      StaysBelow(c, inp, i);
      RunKeepsOk(c, inp, i);
      if Found(c, inp, i).Some? { RawIsPlain(Found(c, inp, i).value); }
    }
    FormsAgree(c, inp, n + 1);
  }

  /** The coder after n bits is k, and the forms agreed so far. */
  ghost predicate At(c: Coder, inp: seq<byte>, n: nat, k: Coder)
  {
    BoundUpTo(c, inp, n) && Run(BranchFree, c, inp, n).Some? && Run(BranchFree, c, inp, n).value.1 == k
  }

  /** A coder e beyond its range stays e beyond it while nothing is read. */
  lemma HalfStep(c: Coder, inp: seq<byte>, n: nat, r: nat, e: nat, pos: nat)
    requires At(c, inp, n, Coder(2 * r, 2 * r + e, pos)) && 2 * r >= TOP && r + e < 0x8000_0000
    ensures At(c, inp, n + 1, Coder(r, r + e, pos))
  {
    Step(c, inp, n, Coder(2 * r, 2 * r + e, pos), Coder(2 * r, 2 * r + e, pos));
  }

  lemma Step(c: Coder, inp: seq<byte>, n: nat, k: Coder, m: Coder)
    requires At(c, inp, n, k) && Normalize(k, inp) == Some(m) && m.code < m.range / 2 + 0x8000_0000
    ensures At(c, inp, n + 1, AfterRaw(m))
  {
    assert Found(c, inp, n) == Some(m);
    assert BoundAt(c, inp, n);
  }

  /** The first bit ends with code == range, and the tenth comes out differently. */
  lemma TenthBitDiffers(c: Coder, inp: seq<byte>)
    requires c == Coder(0x1FF_FF01, 0x1FF_FF00, 0) && inp == [78, 195]
    ensures CoderOk(c) && c.code < c.range && SameUpTo(c, inp, 9)
    ensures Found(c, inp, 9).Some? && RawBit(Found(c, inp, 9).value) != PlainRawBit(Found(c, inp, 9).value)
  {
    var n, e, half := 0, 78, 0x7FFF_C000;
    Step(c, inp, n, c, c);
    Step(c, inp, n + 1, Coder(0xFF_FF80, 0xFF_FF80, 0), Coder(2 * half, 2 * half + e, 1));
    HalfStep(c, inp, n + 2, 0x3FFF_E000, e, 1);
    HalfStep(c, inp, n + 3, 0x1FFF_F000, e, 1);
    HalfStep(c, inp, n + 4, 0xFFF_F800, e, 1);
    HalfStep(c, inp, n + 5, 0x7FF_FC00, e, 1);
    HalfStep(c, inp, n + 6, 0x3FF_FE00, e, 1);
    HalfStep(c, inp, n + 7, 0x1FF_FF00, e, 1);
    HalfStep(c, inp, n + 8, 0xFF_FF80, e, 1);
    LastFound(c, inp, n + 9, Coder(0xFF_FF80, 0xFF_FF80 + e, 1));
    FormsAgree(c, inp, n + 9);
  }

  lemma LastFound(c: Coder, inp: seq<byte>, n: nat, k: Coder)
    requires At(c, inp, n, k) && k == Coder(0xFF_FF80, 0xFF_FF80 + 78, 1) && inp == [78, 195]
    ensures Found(c, inp, n).Some? && RawBit(Found(c, inp, n).value) != PlainRawBit(Found(c, inp, n).value)
  {
    var m := Coder(0xFFFF_8000, 0xFFFF_8000 + 0x4EC3, 2);
    assert Normalize(k, inp) == Some(m);
    assert Found(c, inp, n) == Some(m);
  }
}
