/** Machine words as natural numbers: powers of two, masks, and the `Option` type. */
module Words {

  datatype Option<+T> = None | Some(value: T) {
    predicate IsFailure() { None? }
    function PropagateFailure<U>(): Option<U>
      requires None?
    {
      None
    }
    function Extract(): T
      requires Some?
    {
      value
    }
  }

  type byte = x: int | 0 <= x < 256

  const WORD := 0x1_0000_0000  // 2^32: an unsigned 32-bit word is below this
  const WORD64 := 0x1_0000_0000_0000_0000  // 2^64

  function Pow2(n: nat): (p: nat)
    ensures p > 0
  {
    if n == 0 then 1 else 2 * Pow2(n - 1)
  }

  lemma {:induction false} Pow2Add(a: nat, b: nat)
    ensures Pow2(a + b) == Pow2(a) * Pow2(b)
  {
    if a == 0 {
    } else {
      Pow2Add(a - 1, b);
      assert Pow2(a + b) == 2 * Pow2(a - 1 + b);
      assert 2 * (Pow2(a - 1) * Pow2(b)) == (2 * Pow2(a - 1)) * Pow2(b);
    }
  }

  /** The machine's bitwise AND. */
  function And(a: nat, b: nat): nat
  {
    if a == 0 || b == 0 then 0 else a % 2 * (b % 2) + 2 * And(a / 2, b / 2)
  }

  /** A mask of the bits hi-1..lo keeps exactly those bits. */
  lemma {:induction false} AndMask(x: nat, hi: nat, lo: nat)
    requires lo <= hi
    ensures Pow2(lo) <= Pow2(hi)
    ensures And(x, Pow2(hi) - Pow2(lo)) == x % Pow2(hi) - x % Pow2(lo)
    decreases hi
  {
    if hi == lo {
    } else if lo > 0 {
      AndMask(x / 2, hi - 1, lo - 1);
      AndMaskStep(x, hi, lo);
      ModHalf(x, Pow2(hi - 1));
      ModHalf(x, Pow2(lo - 1));
    } else {
      AndMask(x / 2, hi - 1, 0);
      assert x % Pow2(0) == 0 && x / 2 % Pow2(0) == 0;
      ModHalf(x, Pow2(hi - 1));
      var m := Pow2(hi) - 1;
      assert m % 2 == 1 && m / 2 == Pow2(hi - 1) - 1;
    }
  }

  lemma AndMaskStep(x: nat, hi: nat, lo: nat)
    requires 0 < lo < hi && Pow2(lo) <= Pow2(hi) && Pow2(lo - 1) <= Pow2(hi - 1)
    ensures And(x, Pow2(hi) - Pow2(lo)) == 2 * And(x / 2, Pow2(hi - 1) - Pow2(lo - 1))
  {
    var m := Pow2(hi) - Pow2(lo);
    assert m % 2 == 0 && m / 2 == Pow2(hi - 1) - Pow2(lo - 1);
  }

  lemma ModHalf(x: nat, n: nat)
    requires n > 0
    ensures x % (2 * n) == 2 * (x / 2 % n) + x % 2
  {
    var q, r := x / 2 / n, x / 2 % n;
    assert x / 2 == n * q + r;
    assert x == 2 * n * q + (2 * r + x % 2);
    ModUnique(x, 2 * n, q, 2 * r + x % 2);
  }

  lemma MulMono(n: nat, a: int, b: int)
    requires a <= b
    ensures n * a <= n * b
  {
  }

  lemma ModUnique(x: int, n: int, q: int, r: int)
    requires n > 0 && x == n * q + r && 0 <= r < n
    ensures x % n == r && x / n == q
  {
    var q', r' := x / n, x % n;
    assert n * (q' - q) == r - r';
    if q' - q >= 1 {
      MulMono(n, 1, q' - q);
    } else if q' - q <= -1 {
      MulMono(n, q' - q, -1);
    }
  }

  lemma {:induction false} Pow2Below(a: nat, b: nat)
    requires a <= b
    ensures Pow2(a) <= Pow2(b)
    decreases b - a
  {
    if a < b { Pow2Below(a, b - 1); }
  }

  /** The conversion to int keeps the low 32 bits. */
  function Int32(x: int): int
  {
    var w := x % 0x1_0000_0000;
    if w > 0x7FFF_FFFF then w - 0x1_0000_0000 else w
  }

  /** The low-bits mask 2^k - 1, as the decoder builds it. */
  lemma AndLow(x: nat, k: nat)
    ensures And(x, Pow2(k) - 1) == x % Pow2(k)
  {
    AndMask(x, k, 0);
    assert x % Pow2(0) == 0;
  }

  lemma {:induction false} AndSelf(x: nat)
    ensures And(x, x) == x
  {
    if x > 0 { AndSelf(x / 2); }
  }

  /** The machine's bitwise exclusive or. */
  function Xor(a: nat, b: nat): int { a + b - 2 * And(a, b) }

  lemma PowerEight()
    ensures Pow2(8) == 256 && Pow2(9) == 512
  {
  }

  /** Bit 8 of a word, as the matched-literal loop picks it. */
  lemma AndBit8(x: nat)
    ensures And(x, 256) == 256 * (x / 256 % 2)
  {
    PowerEight();
    AndMask(x, 9, 8);
  }

  lemma SquareTwice(n: nat)
    requires Pow2(n) == 256
    ensures Pow2(4 * n) == WORD
  {
    Pow2Add(n, n);
    Pow2Add(2 * n, 2 * n);
  }

  /** Masking a word with all ones keeps it. */
  lemma AndOnes(x: nat)
    requires x < WORD
    ensures And(x, WORD - 1) == x
  {
    PowerEight();
    SquareTwice(8);
    AndLow(x, 32);
  }
}
