/** The literal coder's index: the decoder's single-mask form is the plain one. */
module LiteralIndex {
  import opened Words
  import opened Symbols
  import opened Decoder

  /** (0x100 << lp) - (0x100 >> lc) */
  function LpMask(p: Props): int
    requires PropsOk(p)
  {
    0x100 * Pow2(p.lp) - 0x100 / Pow2(p.lc)
  }

  /** LZMA_DECODE_REAL's offset: position and last byte in one word, one mask, one shift. */
  function MaskedOffset(p: Props, pos: nat, prev: byte): nat
    requires PropsOk(p) && LpMask(p) >= 0
  {
    3 * (And(pos * 0x100 % WORD + prev, LpMask(p)) * Pow2(p.lc))
  }

  /** LzmaDec_TryDummy's offset: masked position and high bits of the last byte. */
  function PlainOffset(p: Props, pos: nat, prev: byte): nat
    requires PropsOk(p)
  {
    LIT_SIZE * (And(pos, Pow2(p.lp) - 1) * Pow2(p.lc) + prev / Pow2(8 - p.lc))
  }

  lemma PlainIsGroup(p: Props, pos: nat, prev: byte)
    requires PropsOk(p)
    ensures PlainOffset(p, pos, prev) == LIT_SIZE * LitGroup(p, pos, prev)
  {
    AndLow(pos, p.lp);
  }

  lemma ShiftedWord(pos: nat)
    ensures pos * 0x100 % WORD == 0x100 * (pos % 0x100_0000)
  {
  }

  lemma ByteSplit(lc: nat)
    requires lc <= 8
    ensures Pow2(8 - lc) * Pow2(lc) == 256
  {
    PowerEight();
    Pow2Add(8 - lc, lc);
  }

  lemma MaskBounds(p: Props)
    requires PropsOk(p)
    ensures Pow2(8 - p.lc) * Pow2(p.lc) == 256 && 0x100 / Pow2(p.lc) == Pow2(8 - p.lc)
    ensures 0x100 * Pow2(p.lp) == Pow2(8 + p.lp) && LpMask(p) == Pow2(8 + p.lp) - Pow2(8 - p.lc) >= 0
  {
    PowerEight();
    ByteSplit(p.lc);
    Pow2Add(8, p.lp);
    ModUnique(0x100, Pow2(p.lc), Pow2(8 - p.lc), 0);
    Pow2Below(8 - p.lc, 8 + p.lp);
  }

  /** Both decoders address the same 0x300 cells, for every position below 2^32. */
  lemma MaskedIsPlain(p: Props, pos: nat, prev: byte)
    requires PropsOk(p)
    ensures LpMask(p) >= 0 && MaskedOffset(p, pos, prev) == LIT_SIZE * LitGroup(p, pos, prev)
  {
    MaskBounds(p);
    var x := pos * 0x100 % WORD + prev;
    AndMask(x, 8 + p.lp, 8 - p.lc);
    PositionBits(p, pos, prev);
    ByteBits(p, pos, prev);
    Gather(pos % Pow2(p.lp), prev, Pow2(8 - p.lc), Pow2(p.lc));
  }

  lemma PositionBits(p: Props, pos: nat, prev: byte)
    requires PropsOk(p)
    ensures (pos * 0x100 % WORD + prev) % (0x100 * Pow2(p.lp)) == 0x100 * (pos % Pow2(p.lp)) + prev
  {
    var l, y := Pow2(p.lp), pos % 0x100_0000;
    ShiftedWord(pos);
    LowBitsOfWord(pos, p.lp);
    var q := y / l;
    assert 0x100 * y + prev == 0x100 * l * q + (0x100 * (y % l) + prev) by { assert y == l * q + y % l; }
    ModUnique(0x100 * y + prev, 0x100 * l, q, 0x100 * (y % l) + prev);
  }

  /** Reducing to 24 bits first does not change the low bits. */
  lemma LowBitsOfWord(pos: nat, lp: nat)
    requires lp <= 4
    ensures pos % 0x100_0000 % Pow2(lp) == pos % Pow2(lp)
  {
    PowerEight();
    ThreeBytes(8);
    Pow2Add(lp, 24 - lp);
    DropMultiple(Pow2(lp), Pow2(24 - lp), 0x100_0000, pos / 0x100_0000, pos % 0x100_0000);
  }

  lemma ThreeBytes(n: nat)
    requires Pow2(n) == 256
    ensures Pow2(3 * n) == 0x100_0000
  {
    Pow2Add(n, n);
    Pow2Add(2 * n, n);
  }

  lemma ByteBits(p: Props, pos: nat, prev: byte)
    requires PropsOk(p)
    ensures (pos * 0x100 % WORD + prev) % Pow2(8 - p.lc) == prev % Pow2(8 - p.lc)
  {
    var y := pos % 0x100_0000;
    ShiftedWord(pos);
    ByteSplit(p.lc);
    DropMultiple(Pow2(8 - p.lc), Pow2(p.lc), 256, y, prev);
  }

  lemma DropMultiple(u: nat, c: nat, n: nat, y: nat, r: nat)
    requires u > 0 && u * c == n
    ensures (n * y + r) % u == r % u
  {
    var q := r / u;
    assert u * (c * y) == u * c * y == n * y;
    assert u * (c * y + q) == u * (c * y) + u * q;
    ModUnique(n * y + r, u, c * y + q, r % u);
  }

  lemma Gather(hi: nat, prev: byte, u: nat, c: nat)
    requires u > 0 && u * c == 256
    ensures 3 * ((0x100 * hi + prev - prev % u) * c) == LIT_SIZE * (hi * c + prev / u)
  {
    var q := prev / u;
    assert prev - prev % u == u * q;
    assert (0x100 * hi + u * q) * c == 0x100 * (hi * c) + u * c * q;
  }
}
