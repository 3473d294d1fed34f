/** The 32-bit arithmetic of the ramp's leaps. */
module Leaps {
  import opened Words
  import opened CoolingDevice
  import opened DeviceRuns

  function Size(x: int): nat { if x >= 0 then x else -x }

  /** The length of a leap by 2^pow steps, in 32 bits. */
  function LeapLength(c: Config, pow: nat): nat { Pow2(pow) * Size(Step(c)) % 0x1_0000_0000 }

  /** x moved by d towards max. */
  function Onward(c: Config, x: int, d: nat): int { if c.min <= c.max then x + d else x - d }

  /** A leap lands where its length in 32 bits leads. */
  lemma LeapIsLength(c: Config, base: int, pow: nat)
    requires SignOk(c)
    ensures Int32(base + Pow2(pow) * Step(c)) == Int32(Onward(c, base, LeapLength(c, pow)))
  {
    LengthOf(c, base, Pow2(pow));
  }

  lemma LengthOf(c: Config, base: int, p: nat)
    requires SignOk(c)
    ensures Int32(base + p * Step(c)) == Int32(Onward(c, base, p * Size(Step(c)) % 0x1_0000_0000))
  {
    SignedProduct(p, Step(c));
    LengthFrom(c, base, p * Step(c), p * Size(Step(c)));
  }

  lemma LengthFrom(c: Config, base: int, leap: int, d: int)
    requires d >= 0 && SignOk(c) && leap == (if Step(c) >= 0 then d else -d) && (Step(c) == 0 ==> d == 0)
    ensures Int32(base + leap) == Int32(Onward(c, base, d % 0x1_0000_0000))
  {
    SameWord(base, d);
  }

  lemma LeapLengthIsEven(c: Config, pow: nat)
    requires pow > 0
    ensures LeapLength(c, pow) % 2 == 0
  {
    DoubledIsEven(Pow2(pow), Pow2(pow - 1), Size(Step(c)));
  }

  lemma DoubledIsEven(p: nat, half: nat, x: nat)
    requires p == 2 * half
    ensures p * x % 0x1_0000_0000 % 2 == 0
  {
    assert p * x == 2 * (half * x);
    EvenWord(p * x, half * x);
  }

  lemma SignedProduct(p: nat, x: int)
    ensures p * x == if x >= 0 then p * Size(x) else -(p * Size(x))
  {
  }

  lemma WholeWords(x: int, k: int)
    ensures Int32(x + 0x1_0000_0000 * k) == Int32(x)
  {
    ModUnique(x + 0x1_0000_0000 * k, 0x1_0000_0000, x / 0x1_0000_0000 + k, x % 0x1_0000_0000);
  }

  lemma SameWord(x: int, d: nat)
    ensures Int32(x + d) == Int32(x + d % 0x1_0000_0000) && Int32(x - d) == Int32(x - d % 0x1_0000_0000)
  {
    WholeWords(x + d % 0x1_0000_0000, d / 0x1_0000_0000);
    WholeWords(x - d % 0x1_0000_0000, -(d / 0x1_0000_0000));
  }

  lemma EvenWord(d: nat, half: nat)
    requires d == 2 * half
    ensures d % 0x1_0000_0000 % 2 == 0
  {
    ModUnique(d, 0x1_0000_0000, half / 0x8000_0000, 2 * (half % 0x8000_0000));
  }
}
