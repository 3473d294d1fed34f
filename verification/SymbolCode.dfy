/** The bits of a symbol as the format lays them down, written without the automaton: which
    prefix stands for which kind, the bands of a length, and the slot, direct and align bits of
    a distance. The automaton reads exactly these. */
module SymbolCode {
  import opened Words
  import opened Symbols

  type bits = seq<bool>

  // ---- Numbers as bits ----

  /** The value of bits, the highest first. */
  function Value(w: bits): (v: nat)
    ensures v < Pow2(|w|)
  {
    if |w| == 0 then 0 else B(w[0]) * Pow2(|w| - 1) + Value(w[1..])
  }

  /** n bits of v, the highest first. */
  function High(v: nat, n: nat): (w: bits)
    requires v < Pow2(n)
    ensures |w| == n && Value(w) == v
    decreases n, v
  {
    if n == 0 then []
    else
      var top := Pow2(n - 1);
      var w := [v >= top] + High(if v >= top then v - top else v, n - 1);
      assert w[1..] == High(if v >= top then v - top else v, n - 1);
      w
  }

  lemma {:induction false} HighOfValue(w: bits)
    ensures High(Value(w), |w|) == w
  {
    if |w| > 0 { HighOfValue(w[1..]); }
  }

  /** The value of bits, the lowest first. */
  function Reversed(w: bits): (v: nat)
    ensures v < Pow2(|w|)
  {
    if |w| == 0 then 0 else B(w[0]) + 2 * Reversed(w[1..])
  }

  /** n bits of v, the lowest first. */
  function Low(v: nat, n: nat): (w: bits)
    requires v < Pow2(n)
    ensures |w| == n && Reversed(w) == v
    decreases n, v
  {
    if n == 0 then []
    else
      var w := [v % 2 == 1] + Low(v / 2, n - 1);
      assert w[1..] == Low(v / 2, n - 1);
      w
  }

  lemma {:induction false} LowOfReversed(w: bits)
    ensures Low(Reversed(w), |w|) == w
  {
    if |w| > 0 { LowOfReversed(w[1..]); }
  }

  // ---- The code ----

  function LenCode(len: nat): bits
    requires len < 272
  {
    assert Pow2(3) == 8 && Pow2(8) == 256;
    if len < 8 then [false] + High(len, 3)
    else if len < 16 then [true, false] + High(len - 8, 3)
    else [true, true] + High(len - 16, 8)
  }

  /** The position of the highest bit. */
  function Log2(d: nat): nat
    requires d > 0
  {
    if d == 1 then 0 else 1 + Log2(d / 2)
  }

  lemma {:induction false} Log2Is(d: nat, k: nat)
    requires Pow2(k) <= d < 2 * Pow2(k)
    ensures d > 0 && Log2(d) == k
  {
    if k > 0 { Log2Is(d / 2, k - 1); }
  }

  lemma {:induction false} Log2Bounds(d: nat)
    requires d > 0
    ensures Pow2(Log2(d)) <= d < 2 * Pow2(Log2(d))
  {
    if d > 1 { Log2Bounds(d / 2); }
  }

  /** A distance of 4 or more: its highest two bits make the slot, the others follow. */
  datatype Parts = Parts(slot: nat, foot: nat, n: nat)

  function PartsOf(d: nat): Parts
    requires d >= 4
  {
    var k := Log2(d);
    Log2Bounds(d);
    if k == 0 then Parts(0, 0, 0)
    else Parts(2 * k + d / Pow2(k - 1) % 2, d % Pow2(k - 1), k - 1)
  }

  predicate PartsOk(q: Parts) { 4 <= q.slot < 64 && q.n == q.slot / 2 - 1 && q.foot < Pow2(q.n) }

  function Joined(q: Parts): nat
    requires PartsOk(q)
  {
    (2 + q.slot % 2) * Pow2(q.n) + q.foot
  }

  lemma PartsOfJoined(q: Parts)
    requires PartsOk(q)
    ensures 4 <= Joined(q) < WORD && PartsOf(Joined(q)) == q
  {
    var p, d, t := Pow2(q.n), Joined(q), 2 + q.slot % 2;
    Pow2Below(1, q.n);
    assert t * p == 2 * p || t * p == 3 * p;
    Log2Is(d, q.n + 1);
    ModUnique(d, p, t, q.foot);
    WordParts(q);
  }

  lemma WordParts(q: Parts)
    requires PartsOk(q)
    ensures Joined(q) < WORD
  {
    Pow2Below(q.n, 30);
    ThirtyBits();
    var p := Pow2(q.n);
    assert (2 + q.slot % 2) * p <= 3 * p;
  }

  lemma ThirtyBits()
    ensures Pow2(30) == 0x4000_0000
  {
    assert Pow2(10) == 1024;
    Pow2Add(10, 10);
    Pow2Add(20, 10);
  }

  lemma Log2Range(d: nat)
    requires 4 <= d < WORD
    ensures 2 <= Log2(d) <= 31
  {
    var k, top := Log2(d), 32;
    Log2Bounds(d);
    ThirtyBits();
    Pow2Add(30, 2);
    assert Pow2(2) == 4;
    if k >= top { Pow2Below(top, k); }
  }

  lemma JoinedParts(d: nat)
    requires 4 <= d < WORD
    ensures PartsOk(PartsOf(d)) && Joined(PartsOf(d)) == d
  {
    Log2Range(d);
    Log2Bounds(d);
    TopTwoBits(d, Pow2(Log2(d) - 1));
  }

  lemma TopTwoBits(d: nat, p: nat)
    requires p > 0 && 2 * p <= d < 4 * p
    ensures (2 + d / p % 2) * p + d % p == d && d % p < p
  {
    var t := d / p;
    assert d == p * t + d % p;
    if t < 2 { MulMono(p, t, 1); } else if t > 3 { MulMono(p, 4, t); }
    assert t == 2 || t == 3;
  }

  /** The bits behind a slot of 4 or more. */
  function FootCode(q: Parts): bits
    requires PartsOk(q)
  {
    if q.slot < 14 then Low(q.foot, q.n)
    else
      AlignSplit(q);
      High(q.foot / 16, q.n - 4) + Low(q.foot % 16, 4)
  }

  function DistCode(d: nat): bits
    requires d < WORD
  {
    assert Pow2(6) == 64;
    if d < 4 then High(d, 6)
    else
      JoinedParts(d);
      High(PartsOf(d).slot, 6) + FootCode(PartsOf(d))
  }

  lemma AlignSplit(q: Parts)
    requires PartsOk(q) && q.slot >= 14
    ensures q.n >= 6 && q.foot / 16 < Pow2(q.n - 4) && q.foot % 16 < Pow2(4)
  {
    Pow2Add(q.n - 4, 4);
    assert Pow2(4) == 16;
  }

  /** The code of a symbol; len is the length an end mark happens to carry. */
  function CodeOf(s: Sym, len: nat): bits
    requires SymOk(s) && len < 272
  {
    match s
    case Lit(b) => assert Pow2(8) == 256; [false] + High(b, 8)
    case Match(d, l) => [true, false] + LenCode(l) + DistCode(d)
    case EndMark => [true, false] + LenCode(len) + DistCode(END_DIST)
    case ShortRep => [true, true, false, false]
    case Rep(w, l) => RepCode(w) + LenCode(l)
  }

  function RepCode(which: nat): bits
  {
    if which == 0 then [true, true, false, true]
    else if which == 1 then [true, true, true, false]
    else if which == 2 then [true, true, true, true, false]
    else [true, true, true, true, true]
  }

  // ---- Following bits ----

  /** The symbol that exactly these bits lead to. */
  function Leads(c: Ctx, ph: Phase, w: bits): Option<Sym>
    requires PhaseOk(ph) && c.matchByte < 256
    decreases |w|
  {
    if ph.Done? then if |w| == 0 then Some(ph.sym) else None
    else if |w| == 0 then None
    else
      NextOk(c, ph, w[0]);
      Leads(c, Next(c, ph, w[0]), w[1..])
  }

  /** One more bit of a tree. */
  lemma TreeStep(i: nat, b: bool, n: nat)
    requires n > 0
    ensures (2 * i + B(b)) * Pow2(n - 1) == i * Pow2(n) + B(b) * Pow2(n - 1)
    ensures (2 * i + B(b) + 1) * Pow2(n - 1) <= (i + 1) * Pow2(n)
  {
    var p := Pow2(n - 1);
    assert i * Pow2(n) == 2 * i * p && (i + 1) * Pow2(n) == 2 * i * p + 2 * p;
    assert (2 * i + B(b)) * p == 2 * i * p + B(b) * p;
  }

  /** Node i, n levels above leaves from limit on. */
  predicate InTree(i: nat, n: nat, limit: nat) { n > 0 && limit <= i * Pow2(n) && (i + 1) * Pow2(n) <= 2 * limit }

  lemma TreeGoesOn(i: nat, b: bool, n: nat, limit: nat)
    requires InTree(i, n, limit)
    ensures n > 1 ==> InTree(2 * i + B(b), n - 1, limit) && 2 * i + B(b) < limit
    ensures n == 1 ==> limit <= 2 * i + B(b) < 2 * limit
    ensures 1 <= i < limit
  {
    TreeStep(i, b, n);
    Pow2Below(1, n);
    if i >= limit { MulMono(Pow2(n), limit, i); MulMono(limit, 2, Pow2(n)); }
    if n > 1 {
      var j := 2 * i + B(b);
      Pow2Below(1, n - 1);
      if j >= limit { MulMono(Pow2(n - 1), limit, j); MulMono(limit, 2, Pow2(n - 1)); }
    }
  }

  /** d with the bits w shifted in. */
  function Shifted(d: nat, w: bits): nat
    decreases |w|
  {
    if |w| == 0 then d else Shifted(2 * d + B(w[0]), w[1..])
  }

  lemma {:induction false} ShiftedIs(d: nat, w: bits)
    ensures Shifted(d, w) == d * Pow2(|w|) + Value(w)
    decreases |w|
  {
    if |w| > 0 {
      ShiftedIs(2 * d + B(w[0]), w[1..]);
      TreeStep(d, w[0], |w|);
    }
  }

  lemma ShiftOne(d: nat, w: bits, left: nat)
    requires 0 < left <= |w|
    ensures Shifted(d, w[..left]) == Shifted(2 * d + B(w[0]), w[1..][..left - 1]) && w[1..][left - 1..] == w[left..]
    ensures left == 1 ==> Shifted(d, w[..left]) == 2 * d + B(w[0])
  {
    assert w[..left][1..] == w[1..][..left - 1];
  }

  /** The leaf that n bits lead to lies in the tree. */
  lemma {:induction false} LeafInTree(i: nat, w: bits, limit: nat)
    requires InTree(i, |w|, limit)
    ensures limit <= Shifted(i, w) < 2 * limit
    decreases |w|
  {
    TreeGoesOn(i, w[0], |w|, limit);
    if |w| > 1 { LeafInTree(2 * i + B(w[0]), w[1..], limit); }
  }

  lemma {:induction false} LitLeads(c: Ctx, ph: Phase, i: nat, n: nat, w: bits)
    requires c.matchByte < 256 && PhaseOk(ph) && InTree(i, n, 256)
    requires (ph.LitPlain? || ph.LitMatched?) && ph.symbol == i
    ensures |w| != n ==> Leads(c, ph, w) == None
    ensures |w| == n ==> 256 <= Shifted(i, w) < 512 && Leads(c, ph, w) == Some(Lit(Shifted(i, w) - 256))
    decreases n
  {
    if |w| == n { LeafInTree(i, w, 256); }
    if |w| > 0 {
      TreeGoesOn(i, w[0], n, 256);
      NextOk(c, ph, w[0]);
      if n > 1 { LitLeads(c, Next(c, ph, w[0]), 2 * i + B(w[0]), n - 1, w[1..]); }
    }
  }

  lemma {:induction false} LenTreeShort(c: Ctx, src: Source, band: nat, i: nat, n: nat, w: bits)
    requires c.matchByte < 256 && SrcOk(src) && band < 3 && InTree(i, n, BandLimit(band)) && 1 <= i < BandLimit(band)
    requires |w| < n
    ensures Leads(c, LenTree(src, band, i), w) == None
    decreases n
  {
    if |w| > 0 {
      TreeGoesOn(i, w[0], n, BandLimit(band));
      LenTreeStep(c, src, band, i, w);
      LenTreeShort(c, src, band, 2 * i + B(w[0]), n - 1, w[1..]);
    }
  }

  function LenOfLeaf(band: nat, leaf: nat): int { leaf - BandLimit(band) + BandOffset(band) }

  lemma LeafLenOk(src: Source, band: nat, leaf: nat)
    requires SrcOk(src) && band < 3 && BandLimit(band) <= leaf < 2 * BandLimit(band)
    ensures 0 <= LenOfLeaf(band, leaf) < 272 && PhaseOk(AfterLen(src, LenOfLeaf(band, leaf)))
  {
    AfterLenOk(src, LenOfLeaf(band, leaf));
  }

  lemma {:induction false} LenTreeLeads(c: Ctx, src: Source, band: nat, i: nat, n: nat, w: bits)
    requires c.matchByte < 256 && SrcOk(src) && band < 3 && InTree(i, n, BandLimit(band)) && 1 <= i < BandLimit(band)
    requires |w| >= n
    ensures BandLimit(band) <= Shifted(i, w[..n]) < 2 * BandLimit(band)
    ensures var len := LenOfLeaf(band, Shifted(i, w[..n]));
            0 <= len < 272 && PhaseOk(AfterLen(src, len)) &&
            Leads(c, LenTree(src, band, i), w) == Leads(c, AfterLen(src, len), w[n..])
    decreases n
  {
    LeafInTree(i, w[..n], BandLimit(band));
    LeafLenOk(src, band, Shifted(i, w[..n]));
    ShiftOne(i, w, n);
    TreeGoesOn(i, w[0], n, BandLimit(band));
    LenTreeStep(c, src, band, i, w);
    if n > 1 { LenTreeLeads(c, src, band, 2 * i + B(w[0]), n - 1, w[1..]); }
  }

  lemma LenTreeStep(c: Ctx, src: Source, band: nat, i: nat, w: bits)
    requires c.matchByte < 256 && PhaseOk(LenTree(src, band, i)) && |w| > 0
    ensures var i' := 2 * i + B(w[0]);
            if i' >= BandLimit(band) then
              PhaseOk(AfterLen(src, LenOfLeaf(band, i'))) &&
              Leads(c, LenTree(src, band, i), w) == Leads(c, AfterLen(src, LenOfLeaf(band, i')), w[1..])
            else
              PhaseOk(LenTree(src, band, i')) &&
              Leads(c, LenTree(src, band, i), w) == Leads(c, LenTree(src, band, i'), w[1..])
  {
    var ph, i' := LenTree(src, band, i), 2 * i + B(w[0]);
    if i' >= BandLimit(band) {
      LeafLenOk(src, band, i');
      UnfoldTo(c, ph, w, AfterLen(src, LenOfLeaf(band, i')));
    } else {
      UnfoldTo(c, ph, w, LenTree(src, band, i'));
    }
  }

  lemma UnfoldTo(c: Ctx, ph: Phase, w: bits, ph': Phase)
    requires c.matchByte < 256 && PhaseOk(ph) && !ph.Done? && |w| > 0 && PhaseOk(ph') && Next(c, ph, w[0]) == ph'
    ensures Leads(c, ph, w) == Leads(c, ph', w[1..])
  {
    NextOk(c, ph, w[0]);
  }

  lemma {:induction false} SlotLeads(c: Ctx, len: nat, i: nat, n: nat, w: bits)
    requires c.matchByte < 256 && len < 272 && InTree(i, n, 64) && 1 <= i < 64
    ensures |w| < n ==> Leads(c, Slot(len, i), w) == None
    ensures |w| >= n ==>
              var slot := Shifted(i, w[..n]) - 64;
              0 <= slot < 64 && PhaseOk(AfterSlot(len, slot)) &&
              Leads(c, Slot(len, i), w) == Leads(c, AfterSlot(len, slot), w[n..])
    decreases n
  {
    if |w| >= n { LeafInTree(i, w[..n], 64); }
    if |w| > 0 {
      TreeGoesOn(i, w[0], n, 64);
      NextOk(c, Slot(len, i), w[0]);
      if |w| >= n { ShiftOne(i, w, n); }
      if n > 1 { SlotLeads(c, len, 2 * i + B(w[0]), n - 1, w[1..]); }
    }
  }

  lemma {:induction false} SpecLeads(c: Ctx, len: nat, base: nat, i: nat, m: nat, left: nat, w: bits)
    requires c.matchByte < 256 && PhaseOk(SpecDist(len, base, i, m, left))
    ensures Leads(c, SpecDist(len, base, i, m, left), w) ==
            if |w| != left then None else Some(Match(base + (i - m) + m * Reversed(w), len))
    decreases left
  {
    if |w| > 0 {
      NextOk(c, SpecDist(len, base, i, m, left), w[0]);
      var i' := i + m + m * B(w[0]);
      if left > 1 { SpecLeads(c, len, base, i', 2 * m, left - 1, w[1..]); }
      Weigh(m, B(w[0]), Reversed(w[1..]));
    }
  }

  lemma Weigh(m: nat, b: nat, r: nat)
    ensures m * (b + 2 * r) == m * b + 2 * m * r
  {
  }

  lemma {:induction false} AlignLeads(c: Ctx, len: nat, d: nat, i: nat, m: nat, n: nat, w: bits)
    requires c.matchByte < 256 && PhaseOk(AlignBits(len, d, i, m)) && AlignLevel(m, n)
    ensures Leads(c, AlignBits(len, d, i, m), w) ==
            if |w| != n then None else Some(AfterAlign(len, 16 * d + (i - m) + m * Reversed(w)).sym)
    decreases n
  {
    if |w| > 0 {
      NextOk(c, AlignBits(len, d, i, m), w[0]);
      var i' := i + m + m * B(w[0]);
      if n > 1 { AlignLeads(c, len, d, i', 2 * m, n - 1, w[1..]); }
      Weigh(m, B(w[0]), Reversed(w[1..]));
    }
  }

  /** n bits are left when the next one weighs m. */
  predicate AlignLevel(m: nat, n: nat)
  {
    (m == 1 && n == 4) || (m == 2 && n == 3) || (m == 4 && n == 2) || (m == 8 && n == 1)
  }

  // ---- Lengths ----

  lemma Unfold(c: Ctx, ph: Phase, b: bool, rest: bits)
    requires PhaseOk(ph) && !ph.Done? && c.matchByte < 256
    ensures PhaseOk(Next(c, ph, b)) && Leads(c, ph, [b] + rest) == Leads(c, Next(c, ph, b), rest)
  {
    NextOk(c, ph, b);
    assert ([b] + rest)[1..] == rest;
  }

  /** A whole band: n bits for the values below 2^n. */
  lemma BandLeads(c: Ctx, src: Source, band: nat, n: nat, v: nat, rest: bits)
    requires c.matchByte < 256 && SrcOk(src) && band < 3 && n > 0 && Pow2(n) == BandLimit(band) && v < Pow2(n)
    ensures PhaseOk(AfterLen(src, v + 8 * band))
    ensures Leads(c, LenTree(src, band, 1), High(v, n) + rest) == Leads(c, AfterLen(src, v + 8 * band), rest)
  {
    var w := High(v, n) + rest;
    assert w[..n] == High(v, n) && w[n..] == rest;
    LenTreeLeads(c, src, band, 1, n, w);
    ShiftedIs(1, High(v, n));
  }

  lemma BandOnly(c: Ctx, src: Source, band: nat, n: nat, w: bits) returns (v: nat, rest: bits)
    requires c.matchByte < 256 && SrcOk(src) && band < 3 && n > 0 && Pow2(n) == BandLimit(band)
    requires Leads(c, LenTree(src, band, 1), w).Some?
    ensures v < Pow2(n) && w == High(v, n) + rest
  {
    if |w| < n { LenTreeShort(c, src, band, 1, n, w); }
    v, rest := Value(w[..n]), w[n..];
    HighOfValue(w[..n]);
  }

  lemma SmallPowers()
    ensures Pow2(3) == 8 && Pow2(4) == 16 && Pow2(6) == 64 && Pow2(8) == 256
  {
  }

  lemma LenLeads(c: Ctx, src: Source, len: nat, rest: bits)
    requires c.matchByte < 256 && SrcOk(src) && len < 272
    ensures PhaseOk(AfterLen(src, len))
    ensures Leads(c, LenChoice(src), LenCode(len) + rest) == Leads(c, AfterLen(src, len), rest)
  {
    SmallPowers();
    if len < 8 {
      var tail := High(len, 3) + rest;
      assert LenCode(len) + rest == [false] + tail;
      Unfold(c, LenChoice(src), false, tail);
      BandLeads(c, src, 0, 3, len, rest);
    } else {
      LongLenLeads(c, src, len, rest);
    }
  }

  lemma LongLenLeads(c: Ctx, src: Source, len: nat, rest: bits)
    requires c.matchByte < 256 && SrcOk(src) && 8 <= len < 272
    ensures PhaseOk(AfterLen(src, len))
    ensures Leads(c, LenChoice(src), LenCode(len) + rest) == Leads(c, AfterLen(src, len), rest)
  {
    SmallPowers();
    var tail := (if len < 16 then High(len - 8, 3) else High(len - 16, 8)) + rest;
    assert LenCode(len) + rest == [true] + ([len >= 16] + tail);
    Unfold(c, LenChoice(src), true, [len >= 16] + tail);
    Unfold(c, LenChoice2(src), len >= 16, tail);
    if len < 16 { BandLeads(c, src, 1, 3, len - 8, rest); } else { BandLeads(c, src, 2, 8, len - 16, rest); }
  }

  lemma LenOnly(c: Ctx, src: Source, w: bits) returns (len: nat, rest: bits)
    requires c.matchByte < 256 && SrcOk(src) && Leads(c, LenChoice(src), w).Some?
    ensures len < 272 && w == LenCode(len) + rest
  {
    SmallPowers();
    var t := w[1..];
    assert w == [w[0]] + t;
    Unfold(c, LenChoice(src), w[0], t);
    if w[0] { len, rest := LongLenOnly(c, src, t); } else { len, rest := BandOnly(c, src, 0, 3, t); }
  }

  lemma LongLenOnly(c: Ctx, src: Source, t: bits) returns (len: nat, rest: bits)
    requires c.matchByte < 256 && SrcOk(src) && Leads(c, LenChoice2(src), t).Some?
    ensures 8 <= len < 272 && [true] + t == LenCode(len) + rest
  {
    SmallPowers();
    var u := t[1..];
    assert t == [t[0]] + u;
    Unfold(c, LenChoice2(src), t[0], u);
    var v;
    if t[0] {
      v, rest := BandOnly(c, src, 2, 8, u);
      len := v + 16;
    } else {
      v, rest := BandOnly(c, src, 1, 3, u);
      len := v + 8;
    }
  }

  // ---- Distances ----

  function DistSym(d: nat, len: nat): Sym { if d == END_DIST then EndMark else Match(d, len) }

  lemma SlotFirst(c: Ctx, len: nat, w: bits)
    requires c.matchByte < 256 && len < 272
    ensures |w| < 6 ==> Leads(c, Slot(len, 1), w) == None
    ensures |w| >= 6 ==>
              var slot := Value(w[..6]);
              slot < 64 && PhaseOk(AfterSlot(len, slot)) &&
              Leads(c, Slot(len, 1), w) == Leads(c, AfterSlot(len, slot), w[6..])
  {
    SmallPowers();
    var n := 6;
    SlotLeads(c, len, 1, n, w);
    if |w| >= n { ShiftedIs(1, w[..n]); }
  }

  /** What the bits behind a slot say. */
  function ReadFoot(slot: nat, w: bits): (foot: nat)
    requires 4 <= slot < 64 && |w| == slot / 2 - 1
    ensures foot < Pow2(|w|)
  {
    if slot < 14 then Reversed(w)
    else
      FootParts(0, |w| - 4, Value(w[..|w| - 4]), Reversed(w[|w| - 4..]));
      16 * Value(w[..|w| - 4]) + Reversed(w[|w| - 4..])
  }

  function FootSym(slot: nat, len: nat, w: bits): Option<Sym>
    requires 4 <= slot < 64
  {
    if |w| != slot / 2 - 1 then None else Some(DistSym(Joined(Parts(slot, ReadFoot(slot, w), |w|)), len))
  }

  lemma FootLeads(c: Ctx, len: nat, slot: nat, w: bits)
    requires c.matchByte < 256 && len < 272 && 4 <= slot < 64 && PhaseOk(AfterSlot(len, slot))
    ensures Leads(c, AfterSlot(len, slot), w) == FootSym(slot, len, w)
  {
    if slot < 14 {
      ShortFootLeads(c, len, slot, slot / 2 - 1, w);
    } else {
      LongFootLeads(c, len, slot, slot / 2 - 1, w);
    }
  }

  lemma ShortFootLeads(c: Ctx, len: nat, slot: nat, n: nat, w: bits)
    requires c.matchByte < 256 && 4 <= slot < 14 && n == slot / 2 - 1
    requires PhaseOk(SpecDist(len, (2 + slot % 2) * Pow2(n), 1, 1, n))
    ensures Leads(c, SpecDist(len, (2 + slot % 2) * Pow2(n), 1, 1, n), w) == FootSym(slot, len, w)
  {
    SpecLeads(c, len, (2 + slot % 2) * Pow2(n), 1, 1, n, w);
    if |w| == n { ShortDist(slot, n, Reversed(w)); }
  }

  /** A slot below 14 makes no end mark. */
  lemma ShortDist(slot: nat, n: nat, foot: nat)
    requires 4 <= slot < 14 && n == slot / 2 - 1 && foot < Pow2(n)
    ensures (2 + slot % 2) * Pow2(n) + foot < END_DIST
  {
    var p := Pow2(n);
    Pow2Below(n, 6);
    SmallPowers();
    assert (2 + slot % 2) * p <= 3 * p;
  }

  lemma {:induction false} DirectLeads(c: Ctx, len: nat, d: nat, left: nat, w: bits)
    requires c.matchByte < 256 && PhaseOk(Direct(len, d, left))
    ensures |w| != left + 4 ==> Leads(c, Direct(len, d, left), w) == None
    ensures |w| == left + 4 ==>
              Leads(c, Direct(len, d, left), w) == Some(DistSym(16 * Shifted(d, w[..left]) + Reversed(w[left..]), len))
    decreases left
  {
    if |w| > 0 {
      var ph, t := Direct(len, d, left), w[1..];
      NextOk(c, ph, w[0]);
      var d' := 2 * d + B(w[0]);
      if left > 1 { DirectLeads(c, len, d', left - 1, t); } else { AlignFirst(c, len, d', t); }
      if |w| == left + 4 { ShiftOne(d, w, left); }
    }
  }

  lemma LongFootLeads(c: Ctx, len: nat, slot: nat, n: nat, w: bits)
    requires c.matchByte < 256 && 14 <= slot < 64 && n == slot / 2 - 1 && PhaseOk(Direct(len, 2 + slot % 2, n - 4))
    ensures Leads(c, Direct(len, 2 + slot % 2, n - 4), w) == FootSym(slot, len, w)
  {
    DirectLeads(c, len, 2 + slot % 2, n - 4, w);
    if |w| == n { LongSum(slot, n, w[..n - 4], w[n - 4..]); }
  }

  lemma LongSum(slot: nat, n: nat, a: bits, b: bits)
    requires 14 <= slot < 64 && n == slot / 2 - 1 && |a| == n - 4 && |b| == 4
    ensures PartsOk(Parts(slot, 16 * Value(a) + Reversed(b), n))
    ensures Joined(Parts(slot, 16 * Value(a) + Reversed(b), n)) == 16 * Shifted(2 + slot % 2, a) + Reversed(b)
  {
    ShiftedIs(2 + slot % 2, a);
    LongJoined(slot, n, Value(a), Reversed(b));
  }

  lemma LongJoined(slot: nat, n: nat, v: nat, r: nat)
    requires 14 <= slot < 64 && n == slot / 2 - 1 && v < Pow2(n - 4) && r < Pow2(4)
    ensures PartsOk(Parts(slot, 16 * v + r, n))
    ensures Joined(Parts(slot, 16 * v + r, n)) == 16 * ((2 + slot % 2) * Pow2(n - 4) + v) + r
  {
    FootParts(2 + slot % 2, n - 4, v, r);
  }

  lemma AlignFirst(c: Ctx, len: nat, d: nat, w: bits)
    requires c.matchByte < 256 && PhaseOk(AlignBits(len, d, 1, 1))
    ensures Leads(c, AlignBits(len, d, 1, 1), w) == if |w| != 4 then None else Some(DistSym(16 * d + Reversed(w), len))
  {
    SmallPowers();
    var n := 4;
    AlignLeads(c, len, d, 1, 1, n, w);
  }

  lemma FootParts(t: nat, left: nat, v: nat, r: nat)
    requires v < Pow2(left) && r < Pow2(4)
    ensures 16 * v + r < Pow2(left + 4) && 16 * (t * Pow2(left) + v) + r == t * Pow2(left + 4) + (16 * v + r)
  {
    SmallPowers();
    Pow2Add(left, 4);
    var p := Pow2(left);
    assert Pow2(left + 4) == 16 * p && t * (16 * p) == 16 * (t * p);
  }

  lemma DistLeads(c: Ctx, len: nat, d: nat)
    requires c.matchByte < 256 && len < 272 && d < WORD
    ensures Leads(c, Slot(len, 1), DistCode(d)) == Some(DistSym(d, len))
  {
    if d < 4 {
      ShortDistLeads(c, len, d);
    } else {
      JoinedParts(d);
      PartsLead(c, len, PartsOf(d), DistCode(d));
    }
  }

  lemma ShortDistLeads(c: Ctx, len: nat, d: nat)
    requires c.matchByte < 256 && len < 272 && d < 4
    ensures Leads(c, Slot(len, 1), DistCode(d)) == Some(DistSym(d, len))
  {
    SmallPowers();
    var w := DistCode(d);
    SlotFirst(c, len, w);
    assert w[..6] == w && w[6..] == [];
  }

  lemma PartsLead(c: Ctx, len: nat, q: Parts, w: bits)
    requires c.matchByte < 256 && len < 272 && PartsOk(q) && q.slot < Pow2(6) && w == High(q.slot, 6) + FootCode(q)
    ensures Leads(c, Slot(len, 1), w) == Some(DistSym(Joined(q), len))
  {
    SlotFirst(c, len, w);
    assert w[..6] == High(q.slot, 6) && w[6..] == FootCode(q);
    FootLeads(c, len, q.slot, FootCode(q));
    FootIsRead(q);
  }

  lemma FootIsRead(q: Parts)
    requires PartsOk(q)
    ensures |FootCode(q)| == q.n && ReadFoot(q.slot, FootCode(q)) == q.foot
  {
    if q.slot >= 14 {
      AlignSplit(q);
      var a, b := High(q.foot / 16, q.n - 4), Low(q.foot % 16, 4);
      assert (a + b)[..q.n - 4] == a && (a + b)[q.n - 4..] == b;
    }
  }

  lemma DistOnly(c: Ctx, len: nat, w: bits) returns (d: nat)
    requires c.matchByte < 256 && len < 272 && Leads(c, Slot(len, 1), w).Some?
    ensures d < WORD && w == DistCode(d)
  {
    SmallPowers();
    SlotFirst(c, len, w);
    var slot, t := Value(w[..6]), w[6..];
    HighOfValue(w[..6]);
    assert w == High(slot, 6) + t;
    if slot < 4 {
      d := slot;
      assert t == [];
    } else {
      FootLeads(c, len, slot, t);
      d := LongDistOnly(slot, t);
    }
  }

  lemma LongDistOnly(slot: nat, t: bits) returns (d: nat)
    requires 4 <= slot < 64 && |t| == slot / 2 - 1 && slot < Pow2(6)
    ensures 4 <= d < WORD && DistCode(d) == High(slot, 6) + t
  {
    var q := Parts(slot, ReadFoot(slot, t), |t|);
    FootOnly(q, t);
    PartsOfJoined(q);
    d := Joined(q);
  }

  lemma FootOnly(q: Parts, t: bits)
    requires PartsOk(q) && |t| == q.n && q.foot == ReadFoot(q.slot, t)
    ensures FootCode(q) == t
  {
    if q.slot < 14 {
      LowOfReversed(t);
    } else {
      LongFootOnly(q, t[..q.n - 4], t[q.n - 4..]);
      assert t == t[..q.n - 4] + t[q.n - 4..];
    }
  }

  lemma LongFootOnly(q: Parts, a: bits, b: bits)
    requires PartsOk(q) && q.slot >= 14 && |a| == q.n - 4 && |b| == 4 && q.foot == 16 * Value(a) + Reversed(b)
    ensures FootCode(q) == a + b
  {
    SmallPowers();
    HighOfValue(a);
    LowOfReversed(b);
    ModUnique(q.foot, 16, Value(a), Reversed(b));
  }

  // ---- Symbols ----

  lemma LitIsRead(c: Ctx, b: byte)
    requires c.matchByte < 256
    ensures Leads(c, AskMatch, CodeOf(Lit(b), 0)) == Some(Lit(b))
  {
    SmallPowers();
    var n := 8;
    Unfold(c, AskMatch, false, High(b, n));
    LitLeads(c, Next(c, AskMatch, false), 1, n, High(b, n));
    ShiftedIs(1, High(b, n));
  }

  /** The two bits before a new match. */
  lemma NewMatch(c: Ctx, rest: bits)
    requires c.matchByte < 256
    ensures Leads(c, AskMatch, [true, false] + rest) == Leads(c, LenChoice(NewDist), rest)
  {
    Unfold(c, AskMatch, true, [false] + rest);
    Unfold(c, AskRep, false, rest);
    assert [true, false] + rest == [true] + ([false] + rest);
  }

  lemma MatchIsRead(c: Ctx, d: nat, len: nat)
    requires c.matchByte < 256 && len < 272 && d < WORD
    ensures Leads(c, AskMatch, [true, false] + LenCode(len) + DistCode(d)) == Some(DistSym(d, len))
  {
    assert [true, false] + LenCode(len) + DistCode(d) == [true, false] + (LenCode(len) + DistCode(d));
    NewMatch(c, LenCode(len) + DistCode(d));
    LenLeads(c, NewDist, len, DistCode(d));
    DistLeads(c, len, d);
  }

  /** The bits before the length of a repeat match. */
  lemma OldMatch(c: Ctx, which: nat, rest: bits)
    requires c.matchByte < 256 && which < 4
    ensures Leads(c, AskMatch, RepCode(which) + rest) == Leads(c, LenChoice(OldDist(which)), rest)
  {
    if which < 2 { NearMatch(c, which, which == 1, rest); } else { FarMatch(c, which, which == 3, rest); }
  }

  lemma NearMatch(c: Ctx, which: nat, x: bool, rest: bits)
    requires c.matchByte < 256 && which < 2 && x == (which == 1)
    ensures Leads(c, AskMatch, RepCode(which) + rest) == Leads(c, LenChoice(OldDist(which)), rest)
  {
    var tail := [!x] + rest;
    assert RepCode(which) + rest == [true] + ([true] + ([x] + tail));
    Unfold(c, AskMatch, true, [true] + ([x] + tail));
    Unfold(c, AskRep, true, [x] + tail);
    Unfold(c, AskG0, x, tail);
    Unfold(c, if x then AskG1 else AskLong, !x, rest);
  }

  lemma FarMatch(c: Ctx, which: nat, x: bool, rest: bits)
    requires c.matchByte < 256 && 2 <= which < 4 && x == (which == 3)
    ensures Leads(c, AskMatch, RepCode(which) + rest) == Leads(c, LenChoice(OldDist(which)), rest)
  {
    var tail := [x] + rest;
    assert RepCode(which) + rest == [true] + ([true] + ([true] + ([true] + tail)));
    Unfold(c, AskMatch, true, [true] + ([true] + ([true] + tail)));
    Unfold(c, AskRep, true, [true] + ([true] + tail));
    Unfold(c, AskG0, true, [true] + tail);
    Unfold(c, AskG1, true, tail);
    Unfold(c, AskG2, x, rest);
  }

  lemma ShortRepIsRead(c: Ctx, rest: bits)
    requires c.matchByte < 256
    ensures Leads(c, AskMatch, [true, true, false, false] + rest) == Leads(c, Done(ShortRep), rest)
  {
    assert [true, true, false, false] + rest == [true] + ([true] + ([false] + ([false] + rest)));
    Unfold(c, AskMatch, true, [true] + ([false] + ([false] + rest)));
    Unfold(c, AskRep, true, [false] + ([false] + rest));
    Unfold(c, AskG0, false, [false] + rest);
    Unfold(c, AskLong, false, rest);
  }

  /** In every context the automaton reads the code of a symbol as that symbol. */
  lemma CodeIsRead(c: Ctx, s: Sym, len: nat)
    requires c.matchByte < 256 && SymOk(s) && len < 272
    ensures Leads(c, AskMatch, CodeOf(s, len)) == Some(s)
  {
    match s
    case Lit(b) => LitIsRead(c, b);
    case Match(d, l) => MatchIsRead(c, d, l);
    case EndMark => MatchIsRead(c, END_DIST, len);
    case ShortRep =>
      ShortRepIsRead(c, []);
      assert [true, true, false, false] + [] == CodeOf(s, len);
    case Rep(w, l) =>
      OldMatch(c, w, LenCode(l));
      LenLeads(c, OldDist(w), l, []);
      assert LenCode(l) + [] == LenCode(l);
  }

  // ---- And nothing else ----

  lemma LitOnly(c: Ctx, w: bits)
    requires c.matchByte < 256 && |w| > 0 && !w[0] && Leads(c, AskMatch, w).Some?
    ensures Leads(c, AskMatch, w).value.Lit? && w == CodeOf(Leads(c, AskMatch, w).value, 0)
  {
    var t := w[1..];
    assert w == [false] + t;
    Unfold(c, AskMatch, false, t);
    LitBits(c, Next(c, AskMatch, false), t);
    LitIsRead(c, Value(t));
  }

  lemma LitBits(c: Ctx, ph: Phase, t: bits)
    requires c.matchByte < 256 && PhaseOk(ph) && (ph == LitPlain(1) || ph == LitMatched(1, c.matchByte)) &&
             Leads(c, ph, t).Some?
    ensures |t| == 8 && Value(t) < Pow2(8) == 256 && t == High(Value(t), 8)
  {
    SmallPowers();
    var n := 8;
    LitLeads(c, ph, 1, n, t);
    HighOfValue(t);
  }

  lemma MatchOnly(c: Ctx, t: bits) returns (d: nat, len: nat)
    requires c.matchByte < 256 && Leads(c, LenChoice(NewDist), t).Some?
    ensures d < WORD && len < 272 && t == LenCode(len) + DistCode(d) &&
            Leads(c, LenChoice(NewDist), t) == Some(DistSym(d, len))
  {
    var rest;
    len, rest := LenOnly(c, NewDist, t);
    LenLeads(c, NewDist, len, rest);
    d := DistOnly(c, len, rest);
    DistLeads(c, len, d);
  }

  lemma RepOnly(c: Ctx, which: nat, t: bits) returns (len: nat)
    requires c.matchByte < 256 && which < 4 && Leads(c, LenChoice(OldDist(which)), t).Some?
    ensures len < 272 && t == LenCode(len) && Leads(c, LenChoice(OldDist(which)), t) == Some(Rep(which, len))
  {
    var rest;
    len, rest := LenOnly(c, OldDist(which), t);
    LenLeads(c, OldDist(which), len, rest);
    assert rest == [];
    assert LenCode(len) + rest == LenCode(len);
  }

  /** The first bits of a repeat. */
  lemma RepHead(c: Ctx, w: bits) returns (short: bool, which: nat, t: bits)
    requires c.matchByte < 256 && |w| > 1 && w[0] && w[1] && Leads(c, AskMatch, w).Some?
    ensures if short then w == [true, true, false, false] + t else which < 4 && w == RepCode(which) + t
  {
    var u := w[2..];
    assert w == [true] + ([true] + u);
    Unfold(c, AskMatch, true, [true] + u);
    Unfold(c, AskRep, true, u);
    var v := u[1..];
    assert u == [u[0]] + v;
    Unfold(c, AskG0, u[0], v);
    t := v[1..];
    assert v == [v[0]] + t;
    short := !u[0] && !v[0];
    which := if u[0] then 1 else 0;
    if u[0] && v[0] {
      Unfold(c, AskG1, true, t);
      which := if t[0] then 3 else 2;
      assert t == [t[0]] + t[1..];
      t := t[1..];
    }
  }

  /** Only the code of a symbol is read as that symbol. */
  lemma OnlyCodeIsRead(c: Ctx, w: bits) returns (len: nat)
    requires c.matchByte < 256 && Leads(c, AskMatch, w).Some?
    ensures var s := Leads(c, AskMatch, w).value; SymOk(s) && len < 272 && w == CodeOf(s, len)
  {
    len := 0;
    if !w[0] {
      LitOnly(c, w);
    } else {
      TwoBits(c, w);
      if w[1] { len := OnlyRepIsRead(c, w); } else { len := OnlyMatchIsRead(c, w); }
    }
  }

  lemma TwoBits(c: Ctx, w: bits)
    requires c.matchByte < 256 && |w| > 0 && w[0] && Leads(c, AskMatch, w).Some?
    ensures |w| > 1
  {
    UnfoldTo(c, AskMatch, w, AskRep);
  }

  lemma OnlyMatchIsRead(c: Ctx, w: bits) returns (len: nat)
    requires c.matchByte < 256 && |w| > 1 && w[0] && !w[1] && Leads(c, AskMatch, w).Some?
    ensures var s := Leads(c, AskMatch, w).value; SymOk(s) && len < 272 && w == CodeOf(s, len)
  {
    var t := w[2..];
    assert w == [true, false] + t;
    NewMatch(c, t);
    var d;
    d, len := MatchOnly(c, t);
    assert w == [true, false] + LenCode(len) + DistCode(d);
  }

  lemma OnlyRepIsRead(c: Ctx, w: bits) returns (len: nat)
    requires c.matchByte < 256 && |w| > 1 && w[0] && w[1] && Leads(c, AskMatch, w).Some?
    ensures var s := Leads(c, AskMatch, w).value; SymOk(s) && len < 272 && w == CodeOf(s, len)
  {
    var short, which, t := RepHead(c, w);
    len := 0;
    if short {
      ShortRepIsRead(c, t);
      assert t == [];
      assert w == [true, true, false, false];
    } else {
      OldMatch(c, which, t);
      len := RepOnly(c, which, t);
    }
  }
}
