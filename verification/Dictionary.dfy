/** The output dictionary: byte-by-byte copies from `dist` bytes back. */
module Dictionary {
  import opened Words

  /** The byte `dist` positions back (0 where there is none). */
  function Back(out: seq<byte>, dist: nat): byte
  {
    if 1 <= dist <= |out| then out[|out| - dist] else 0
  }

  /** Append n bytes, each read `dist` bytes back at the moment it is written. */
  function Expand(out: seq<byte>, dist: nat, n: nat): (r: seq<byte>)
    ensures |r| == |out| + n && out <= r
    decreases n
  {
    if n == 0 then out else Expand(out + [Back(out, dist)], dist, n - 1)
  }

  /** A copy may be interrupted anywhere and resumed. */
  lemma {:induction false} ExpandAdd(out: seq<byte>, dist: nat, a: nat, b: nat)
    ensures Expand(out, dist, a + b) == Expand(Expand(out, dist, a), dist, b)
    decreases a
  {
    if a > 0 { ExpandAdd(out + [Back(out, dist)], dist, a - 1, b); }
  }

  /** Overlap included, the copy is the one sequence that extends `out` and repeats with
      period `dist`. */
  lemma {:induction false} ExpandIsPeriodic(out: seq<byte>, dist: nat, n: nat, s: seq<byte>)
    requires 1 <= dist <= |out|
    ensures s == Expand(out, dist, n) <==>
            |s| == |out| + n && out <= s && forall i :: |out| <= i < |s| ==> s[i] == s[i - dist]
    decreases n
  {
    if n == 0 {
    } else {
      var out' := out + [Back(out, dist)];
      ExpandIsPeriodic(out', dist, n - 1, s);
      if |s| == |out| + n && out <= s && forall i :: |out| <= i < |s| ==> s[i] == s[i - dist] {
        assert s[|out|] == s[|out| - dist] == out[|out| - dist];
        assert out' <= s;
      }
      if s == Expand(out, dist, n) {
        assert s[|out|] == out'[|out|] == out[|out| - dist] == s[|out| - dist];
      }
    }
  }
}
