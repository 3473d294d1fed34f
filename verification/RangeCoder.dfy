/** The binary range decoder: one NORMALIZE, one modelled bit, one direct bit. */
module RangeCoder {
  import opened Words

  const TOP := 0x100_0000        // kTopValue, 2^24
  const BIT_TOTAL := 2048        // kBitModelTotal
  const PROB_MIN := 31
  const PROB_MAX := 2017

  /** `range` and `code` are 32-bit registers, `pos` indexes the next input byte. */
  datatype Coder = Coder(range: nat, code: nat, pos: nat)

  predicate ProbOk(p: nat) { PROB_MIN <= p <= PROB_MAX }

  /** What every bit leaves behind: one NORMALIZE is enough to get back to TOP. */
  predicate CoderOk(c: Coder) { 0x1_0000 <= c.range < WORD && c.code < WORD }

  function Normalize(c: Coder, inp: seq<byte>): (r: Option<Coder>)
    ensures CoderOk(c) && r.Some? ==> CoderOk(r.value) && TOP <= r.value.range
    ensures r.Some? ==> c.pos <= r.value.pos <= c.pos + 1 && (c.pos < r.value.pos ==> r.value.pos <= |inp|)
    ensures c.code < c.range && r.Some? ==> r.value.code < r.value.range
  {
    if c.range >= TOP then Some(c)
    else if c.pos < |inp| then
      Some(Coder(c.range * 256, c.code * 256 % WORD + inp[c.pos], c.pos + 1))
    else None
  }

  function Bound(range: nat, p: nat): nat { range / BIT_TOTAL * p }

  predicate BitOf(c: Coder, p: nat) { c.code >= Bound(c.range, p) }

  function AfterBit(c: Coder, p: nat): Coder
    requires Bound(c.range, p) <= c.range
  {
    var b := Bound(c.range, p);
    if c.code < b then Coder(b, c.code, c.pos) else Coder(c.range - b, c.code - b, c.pos)
  }

  function Adapt(p: nat, bit: bool): (q: nat)
    requires p <= BIT_TOTAL
    ensures ProbOk(p) ==> ProbOk(q)
  {
    if bit then p - p / 32 else p + (BIT_TOTAL - p) / 32
  }

  /** A modelled bit keeps at least 31/2048 of the interval, up to rounding down. */
  lemma BitKeeps(c: Coder, p: nat)
    requires CoderOk(c) && TOP <= c.range && ProbOk(p)
    ensures Bound(c.range, p) < c.range
    ensures CoderOk(AfterBit(c, p)) && AfterBit(c, p).range <= c.range
    ensures c.range / BIT_TOTAL * PROB_MIN <= AfterBit(c, p).range
    ensures c.code < c.range ==> AfterBit(c, p).code < AfterBit(c, p).range
  {
    var q := c.range / BIT_TOTAL;
    MulMono(q, p, PROB_MAX);
    MulMono(q, PROB_MIN, p);
  }

  // ---- Direct bits ----

  /** The branch-free step: the top bit of the 32-bit difference decides. */
  function RawDiff(c: Coder): nat { (c.code - c.range / 2) % WORD }

  predicate RawBit(c: Coder) { RawDiff(c) < 0x8000_0000 }

  function AfterRaw(c: Coder): Coder
  {
    Coder(c.range / 2, if RawBit(c) then RawDiff(c) else c.code, c.pos)
  }

  lemma RawKeeps(c: Coder)
    requires CoderOk(c) && TOP <= c.range
    ensures CoderOk(AfterRaw(c)) && c.range <= 2 * AfterRaw(c).range + 1
    ensures c.code < c.range ==> AfterRaw(c).code <= AfterRaw(c).range
  {
  }

  /** The commented-out form in the source: compare, subtract, shift in a one. */
  predicate PlainRawBit(c: Coder) { c.code >= c.range / 2 }

  function AfterPlainRaw(c: Coder): Coder
  {
    Coder(c.range / 2, if PlainRawBit(c) then c.code - c.range / 2 else c.code, c.pos)
  }

  /** The branch-free and the compare-and-subtract form agree on the bit and on the
      registers exactly below this bound; a code under the range always is. */
  lemma RawIsPlain(c: Coder)
    requires CoderOk(c)
    ensures (RawBit(c) == PlainRawBit(c) && AfterRaw(c) == AfterPlainRaw(c)) <==> c.code < c.range / 2 + 0x8000_0000
    ensures c.code < c.range ==> c.code < c.range / 2 + 0x8000_0000
  {
    assert c.range / 2 < 0x8000_0000;
  }

  /** A direct bit keeps code < range exactly when the range is even or the code is not the
      last one below it. */
  lemma RawKeepsStrictly(c: Coder)
    requires CoderOk(c) && TOP <= c.range && c.code < c.range
    ensures AfterRaw(c).code < AfterRaw(c).range <==> c.range % 2 == 0 || c.code + 1 < c.range
  {
  }

  /** Entered with code < range a direct bit can end with code equal to range. */
  lemma RawBitReachesRange()
    ensures var c := Coder(0x100_0001, 0x100_0000, 0);
            CoderOk(c) && c.code < c.range && AfterRaw(c).code == AfterRaw(c).range
  {
  }
}
