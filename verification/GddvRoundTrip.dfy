/** Reading back what the generator wrote. */
module GddvRoundTrip {
  import opened Words
  import opened GddvFormat

  predicate TextOk(s: bytes) { NulFree(s) && |s| < INT_MAX }

  predicate EntryOk(e: Entry)
  {
    TextOk(e.source) && TextOk(e.target) && e.priority <= INT_MAX && e.samplePeriod <= INT_MAX &&
    0 <= DeciKelvin(e.temperature) <= INT_MAX && e.domain <= INT_MAX && e.controlKnob <= INT_MAX &&
    (e.limit.LimitNumber? ==> e.limit.n < WORD64) && e.stepSize <= INT_MAX && e.limitCoeff <= INT_MAX &&
    e.unlimitCoeff <= INT_MAX
  }

  predicate TableOk(t: Table)
  {
    (forall i :: 0 <= i < |t.entries| ==> EntryOk(t.entries[i])) &&
    t.name != [] && NulFree(t.name) && (forall i :: 0 <= i < |t.name| ==> t.name[i] != SLASH) && |t.name| + 21 < INT_MAX
  }

  function PsvOf(e: Entry): Psv
  {
    Psv(e.source, e.target, e.priority, e.samplePeriod, DeciKelvin(e.temperature), e.domain, e.controlKnob,
        LimitText(e.limit), e.stepSize, e.limitCoeff, e.unlimitCoeff)
  }

  function PsvsOf(es: seq<Entry>): (r: seq<Psv>)
    ensures |r| == |es| && forall i :: 0 <= i < |es| ==> r[i] == PsvOf(es[i])
  {
    if |es| == 0 then [] else [PsvOf(es[0])] + PsvsOf(es[1..])
  }

  function PsvtOf(t: Table): Psvt { Psvt(t.name, PsvsOf(t.entries)) }

  function PsvtsOf(ts: seq<Table>): (r: seq<Psvt>)
    ensures |r| == |ts| && forall i :: 0 <= i < |ts| ==> r[i] == PsvtOf(ts[i])
  {
    if |ts| == 0 then [] else [PsvtOf(ts[0])] + PsvtsOf(ts[1..])
  }

  // ---- Fields ----

  lemma TakeFront(x: bytes, post: bytes)
    ensures Take(x + post, |x|) == Some((x, post))
  {
    assert (x + post)[..|x|] == x && (x + post)[|x|..] == post;
  }

  lemma Tags()
    ensures FromLittle(TAG_UINT64) == 4 && FromLittle(TAG_STRING) == 8
  {
    var z := [0, 0, 0];
    assert z[1..] == [0, 0] && z[1..][1..] == [0] && z[1..][1..][1..] == [];
    assert FromLittle(z) == 0;
    assert TAG_UINT64[1..] == z && TAG_STRING[1..] == z;
  }

  lemma Uint64ReadsBack(v: nat, post: bytes)
    requires v < WORD64
    ensures ReadUint64(Uint64Bytes(v) + post) == Some((v, post))
    ensures exists r :: Take(Uint64Bytes(v) + post, 4) == Some((TAG_UINT64, r))
  {
    var w := Little(v, 8);
    WordSizes();
    LittleRoundTrip(v, 8);
    Tags();
    assert Uint64Bytes(v) + post == TAG_UINT64 + (w + post);
    TakeFront(TAG_UINT64, w + post);
    TakeFront(w, post);
  }

  lemma StringReadsBack(s: bytes, post: bytes)
    requires TextOk(s)
    ensures ReadString(StringBytes(s) + post) == Some((s, post))
    ensures exists r :: Take(StringBytes(s) + post, 4) == Some((TAG_STRING, r))
  {
    var w, t := Little(|s| + 1, 8), s + [0];
    WordSizes();
    LittleRoundTrip(|s| + 1, 8);
    Tags();
    Regroup(TAG_STRING, w + t, post);
    Regroup(w, t, post);
    TakeFront(TAG_STRING, w + (t + post));
    TakeFront(w, t + post);
    UntilNulStops(s, post);
    assert (t + post)[|s| + 1..] == post;
  }

  /** The string stays inside its declared length exactly when a NUL does. */
  lemma {:induction false} UntilNulWithin(s: bytes, n: nat)
    requires n <= |s|
    ensures |UntilNul(s)| < n <==> exists i :: 0 <= i < n && s[i] == 0
  {
    if n > 0 && s[0] != 0 {
      UntilNulWithin(s[1..], n - 1);
      assert forall i :: 1 <= i < n ==> s[i] == s[1..][i - 1];
    }
  }

  /** Stopping at the declared length n gives the same string exactly when a NUL is inside it,
      or right behind it, or nothing is. */
  lemma {:induction false} UntilNulBounded(s: bytes, n: nat)
    requires n <= |s|
    ensures UntilNul(s) == UntilNul(s[..n]) <==> (exists i :: 0 <= i < n && s[i] == 0) || n == |s| || s[n] == 0
  {
    if n > 0 && s[0] != 0 {
      UntilNulBounded(s[1..], n - 1);
      assert s[..n][1..] == s[1..][..n - 1];
      ConsEqual(s[0], UntilNul(s[1..]), UntilNul(s[1..][..n - 1]));
      NulBehind(s, n);
    } else {
      assert n > 0 ==> s[..n][0] == s[0];
    }
  }

  lemma ConsEqual(x: byte, a: bytes, b: bytes)
    ensures [x] + a == [x] + b <==> a == b
  {
    assert ([x] + a)[1..] == a && ([x] + b)[1..] == b;
  }

  lemma NulBehind(s: bytes, n: nat)
    requires 0 < n <= |s| && s[0] != 0
    ensures (exists i :: 0 <= i < n && s[i] == 0) <==> exists i :: 0 <= i < n - 1 && s[1..][i] == 0
  {
    assert forall i :: 1 <= i < n ==> s[i] == s[1..][i - 1];
  }

  /** A string field of declared length n, and what is read of it: the declared length bounds
      where reading goes on, and bounds the string only under this condition. */
  lemma FieldIsRead(n: nat, s: bytes)
    requires n <= |s| && n <= INT_MAX
    ensures var r := ReadString(TAG_STRING + (Little(n, 8) + s));
            r == Some((UntilNul(s), s[n..])) &&
            (r.value.0 == UntilNul(s[..n]) <==> (exists i :: 0 <= i < n && s[i] == 0) || n == |s| || s[n] == 0)
  {
    var w := Little(n, 8);
    WordSizes();
    LittleRoundTrip(n, 8);
    Tags();
    TakeFront(TAG_STRING, w + s);
    TakeFront(w, s);
    UntilNulBounded(s, n);
  }

  /** One byte is declared and two are read, wherever the byte behind the field is no NUL. */
  lemma ReadsPastItsField(a: byte, b: byte)
    requires a != 0 && b != 0
    ensures UntilNul([a]) == [a] && ReadString(TAG_STRING + (Little(1, 8) + [a, b, 0])) == Some(([a, b], [b, 0]))
  {
    var s, n := [a, b, 0], 1;
    FieldIsRead(n, s);
    assert s[1..] == [b, 0] && s[1..][1..] == [0];
    assert UntilNul(s[1..]) == [b] + UntilNul(s[1..][1..]);
    assert UntilNul(s) == [a] + UntilNul(s[1..]) == [a, b];
    assert ReadString(TAG_STRING + (Little(n, 8) + s)) == Some(([a, b], [b, 0]));
    assert [a][1..] == [];
  }

  lemma LimitReadsBack(l: Limit, post: bytes)
    requires l.LimitNumber? ==> l.n < WORD64
    ensures ReadLimit(LimitBytes(l) + post) == Some((LimitText(l), post))
  {
    Tags();
    match l
    case LimitNumber(n) => Uint64ReadsBack(n, post);
    case LimitMin => StringReadsBack(MIN, post);
    case LimitMax => StringReadsBack(MAX, post);
  }

  /** Numeric limits survive as their decimal text. */
  function FromDecimal(s: bytes): int
  {
    if |s| == 0 then 0 else 10 * FromDecimal(s[..|s| - 1]) + (s[|s| - 1] as int - 48)
  }

  lemma {:induction false} DecimalReadsBack(n: nat)
    ensures |Decimal(n)| > 0 && FromDecimal(Decimal(n)) == n
  {
    if n >= 10 {
      DecimalReadsBack(n / 10);
      assert Decimal(n)[..|Decimal(n)| - 1] == Decimal(n / 10);
    } else {
      assert Decimal(n)[..0] == [];
    }
  }

  // ---- Records and tables ----

  /** The bytes b read as v, whatever follows. */
  ghost predicate AsUint64(b: bytes, v: nat) { forall post: bytes :: ReadUint64(b + post) == Some((v, post)) }

  lemma Uint64IsRead(v: nat)
    requires v <= INT_MAX
    ensures AsUint64(Uint64Bytes(v), v)
  {
    forall post: bytes { Uint64ReadsBack(v, post); }
  }

  lemma FiveRead(a: bytes, va: nat, b: bytes, vb: nat, c: bytes, vc: nat, d: bytes, vd: nat, e: bytes, ve: nat,
                 post: bytes)
    requires AsUint64(a, va) && AsUint64(b, vb) && AsUint64(c, vc) && AsUint64(d, vd) && AsUint64(e, ve)
    ensures ReadFive(a + (b + (c + (d + (e + post))))) == Some(((va, vb, vc, vd, ve), post))
  {
  }

  lemma ThreeRead(a: bytes, va: nat, b: bytes, vb: nat, c: bytes, vc: nat, post: bytes)
    requires AsUint64(a, va) && AsUint64(b, vb) && AsUint64(c, vc)
    ensures ReadThree(a + (b + (c + post))) == Some(((va, vb, vc), post))
  {
  }

  lemma Regroup4(a: bytes, b: bytes, c: bytes, post: bytes)
    ensures a + b + c + post == a + (b + (c + post))
  {
  }

  lemma NamesReadBack(e: Entry, post: bytes)
    requires EntryOk(e)
    ensures ReadNames(NameBytes(e) + post) == Some(((e.source, e.target), post))
  {
    Regroup(StringBytes(e.source), StringBytes(e.target), post);
    StringReadsBack(e.source, StringBytes(e.target) + post);
    StringReadsBack(e.target, post);
    NamesFromParts(NameBytes(e) + post, e.source, StringBytes(e.target) + post, e.target, post);
  }

  lemma NamesFromParts(rest: bytes, source: bytes, r1: bytes, target: bytes, r2: bytes)
    requires ReadString(rest) == Some((source, r1)) && ReadString(r1) == Some((target, r2))
    ensures ReadNames(rest) == Some(((source, target), r2))
  {
  }

  lemma NumbersReadBack(e: Entry, post: bytes)
    requires EntryOk(e)
    ensures ReadFive(NumberBytes(e) + post) ==
            Some(((e.priority, e.samplePeriod, DeciKelvin(e.temperature), e.domain, e.controlKnob), post))
  {
    var t := DeciKelvin(e.temperature);
    Uint64IsRead(e.priority);
    Uint64IsRead(e.samplePeriod);
    Uint64IsRead(t);
    Uint64IsRead(e.domain);
    Uint64IsRead(e.controlKnob);
    FiveRead(Uint64Bytes(e.priority), e.priority, Uint64Bytes(e.samplePeriod), e.samplePeriod, Uint64Bytes(t), t,
             Uint64Bytes(e.domain), e.domain, Uint64Bytes(e.controlKnob), e.controlKnob, post);
    Regroup5(Uint64Bytes(e.priority), Uint64Bytes(e.samplePeriod), Uint64Bytes(t), Uint64Bytes(e.domain),
             Uint64Bytes(e.controlKnob), post);
  }

  lemma Regroup5(a: bytes, b: bytes, c: bytes, d: bytes, e: bytes, post: bytes)
    ensures a + b + c + d + e + post == a + (b + (c + (d + (e + post))))
  {
    Regroup(a + b + c + d, e, post);
    Regroup(a + b + c, d, e + post);
    Regroup4(a, b, c, d + (e + post));
  }

  lemma TailReadsBack(e: Entry, post: bytes)
    requires EntryOk(e)
    ensures ReadTail(TailBytes(e) + post) == Some(((LimitText(e.limit), (e.stepSize, e.limitCoeff, e.unlimitCoeff)),
                                                   post))
  {
    var tail := PADDING + post;
    var three := Uint64Bytes(e.stepSize) + (Uint64Bytes(e.limitCoeff) + (Uint64Bytes(e.unlimitCoeff) + tail));
    Uint64IsRead(e.stepSize);
    Uint64IsRead(e.limitCoeff);
    Uint64IsRead(e.unlimitCoeff);
    ThreeRead(Uint64Bytes(e.stepSize), e.stepSize, Uint64Bytes(e.limitCoeff), e.limitCoeff, Uint64Bytes(e.unlimitCoeff),
              e.unlimitCoeff, tail);
    LimitReadsBack(e.limit, three);
    Regroup5(LimitBytes(e.limit), Uint64Bytes(e.stepSize), Uint64Bytes(e.limitCoeff), Uint64Bytes(e.unlimitCoeff),
             PADDING, post);
    assert Skip(tail, 12) == post;
    TailFromParts(TailBytes(e) + post, LimitText(e.limit), three, (e.stepSize, e.limitCoeff, e.unlimitCoeff), tail);
  }

  lemma TailFromParts(rest: bytes, limit: bytes, r1: bytes, three: (nat, nat, nat), r2: bytes)
    requires ReadLimit(rest) == Some((limit, r1)) && ReadThree(r1) == Some((three, r2))
    ensures ReadTail(rest) == Some(((limit, three), Skip(r2, 12)))
  {
  }

  lemma EntryReadsBack(e: Entry, post: bytes)
    requires EntryOk(e)
    ensures ReadPsv(EntryBytes(e) + post) == Some((PsvOf(e), post))
  {
    var tail := TailBytes(e) + post;
    var five := NumberBytes(e) + tail;
    Regroup4(NameBytes(e), NumberBytes(e), TailBytes(e), post);
    NamesReadBack(e, five);
    NumbersReadBack(e, tail);
    TailReadsBack(e, post);
    IntsFit(e);
    PsvFromParts(EntryBytes(e) + post, (e.source, e.target), five,
                 (e.priority, e.samplePeriod, DeciKelvin(e.temperature), e.domain, e.controlKnob), tail,
                 (LimitText(e.limit), (e.stepSize, e.limitCoeff, e.unlimitCoeff)), post);
  }

  lemma IntsFit(e: Entry)
    requires EntryOk(e)
    ensures MakePsv((e.source, e.target),
                    (e.priority, e.samplePeriod, DeciKelvin(e.temperature), e.domain, e.controlKnob),
                    (LimitText(e.limit), (e.stepSize, e.limitCoeff, e.unlimitCoeff))) == PsvOf(e)
  {
  }

  lemma PsvFromParts(rest: bytes, names: (bytes, bytes), r1: bytes, five: (nat, nat, nat, nat, nat), r2: bytes,
                     tail: (bytes, (nat, nat, nat)), r3: bytes)
    requires ReadNames(rest) == Some((names, r1)) && ReadFive(r1) == Some((five, r2)) &&
             ReadTail(r2) == Some((tail, r3))
    ensures ReadPsv(rest) == Some((MakePsv(names, five, tail), r3))
  {
  }

  lemma {:induction false} EntriesReadBack(es: seq<Entry>)
    requires forall i :: 0 <= i < |es| ==> EntryOk(es[i])
    ensures ReadPsvs(EntriesBytes(es)) == Some(PsvsOf(es))
    decreases |es|
  {
    if |es| > 0 {
      EntryReadsBack(es[0], EntriesBytes(es[1..]));
      assert |EntriesBytes(es)| > 0;
      EntriesReadBack(es[1..]);
      MorePsvs(EntriesBytes(es), PsvOf(es[0]), EntriesBytes(es[1..]), PsvsOf(es[1..]));
    }
  }

  lemma MorePsvs(rest: bytes, psv: Psv, rest': bytes, more: seq<Psv>)
    requires |rest| > 0 && ReadPsv(rest) == Some((psv, rest')) && ReadPsvs(rest') == Some(more)
    ensures ReadPsvs(rest) == Some([psv] + more)
  {
  }

  lemma ValueReadsBack(name: bytes, t: Table)
    requires TableOk(t)
    ensures ReadTable(name, ValueBytes(t)) == Some(Psvt(name, PsvsOf(t.entries)))
  {
    var val, version := ValueIs(t);
    EntriesReadBack(t.entries);
    Uint64ReadsBack(version, EntriesBytes(t.entries));
    TableFromParts(name, val, version, EntriesBytes(t.entries), PsvsOf(t.entries));
  }

  lemma ValueIs(t: Table) returns (val: bytes, version: nat)
    ensures val == ValueBytes(t) && version == 2 && val == Uint64Bytes(version) + EntriesBytes(t.entries)
  {
    val, version := ValueBytes(t), 2;
  }

  /** The table is read if and only if its version, as an int, is at most 2. */
  lemma VersionDecides(name: bytes, version: nat, es: seq<Entry>)
    requires version < WORD64 && forall i :: 0 <= i < |es| ==> EntryOk(es[i])
    ensures ReadTable(name, Uint64Bytes(version) + EntriesBytes(es)) ==
            if 3 <= version % 0x1_0000_0000 < 0x8000_0000 then None else Some(Psvt(name, PsvsOf(es)))
  {
    VersionAsInt(version);
    EntriesReadBack(es);
    Uint64ReadsBack(version, EntriesBytes(es));
    TableFromParts(name, Uint64Bytes(version) + EntriesBytes(es), version, EntriesBytes(es), PsvsOf(es));
  }

  lemma VersionAsInt(version: nat)
    ensures Int32(version) > 2 <==> 3 <= version % 0x1_0000_0000 < 0x8000_0000
  {
  }

  lemma TableFromParts(name: bytes, val: bytes, version: nat, rest: bytes, psvs: seq<Psv>)
    requires ReadUint64(val) == Some((version, rest)) && ReadPsvs(rest) == Some(psvs)
    ensures ReadTable(name, val) == if Int32(version) <= 2 then Some(Psvt(name, psvs)) else None
  {
  }

  // ---- Keys ----

  lemma {:induction false} TokenEndsAtSlash(t: bytes, post: bytes)
    requires (forall i :: 0 <= i < |t| ==> t[i] != SLASH) && (|post| > 0 ==> post[0] == SLASH)
    ensures Token(t + post) == t
  {
    if |t| == 0 {
      assert t + post == post;
    } else {
      TokenEndsAtSlash(t[1..], post);
      assert (t + post)[1..] == t[1..] + post;
    }
  }

  /** One path component after a slash. */
  lemma TokensAfterSlash(t: bytes, post: bytes)
    requires t != [] && (forall i :: 0 <= i < |t| ==> t[i] != SLASH) && (|post| > 0 ==> post[0] == SLASH)
    ensures Tokens([SLASH] + t + post) == [t] + Tokens(post)
  {
    var s := [SLASH] + t + post;
    assert s[1..] == t + post;
    TokenEndsAtSlash(t, post);
    assert (t + post)[|t|..] == post;
  }

  lemma PathReadsBack(name: bytes)
    requires name != [] && NulFree(name) && forall i :: 0 <= i < |name| ==> name[i] != SLASH
    ensures PathOf(PREFIX + name + [0]) == KeyPath(Some(PSVT), Some(name))
  {
    var s0 := [SLASH] + SHARED + ([SLASH] + TABLES + ([SLASH] + PSVT + ([SLASH] + name + [])));
    assert PREFIX + name == s0;
    UntilNulStops(PREFIX + name, []);
    assert PREFIX + name + [0] + [] == PREFIX + name + [0];
    FourTokens(SHARED, TABLES, PSVT, name);
    assert |SHARED| != |PARTICIPANTS|;
  }

  predicate IsToken(t: bytes) { t != [] && forall i :: 0 <= i < |t| ==> t[i] != SLASH }

  lemma FourTokens(a: bytes, b: bytes, c: bytes, d: bytes)
    requires IsToken(a) && IsToken(b) && IsToken(c) && IsToken(d)
    ensures Tokens([SLASH] + a + ([SLASH] + b + ([SLASH] + c + ([SLASH] + d + [])))) == [a, b, c, d]
  {
    var s3 := [SLASH] + d + [];
    var s2 := [SLASH] + c + s3;
    var s1 := [SLASH] + b + s2;
    TokensAfterSlash(d, []);
    TokensAfterSlash(c, s3);
    TokensAfterSlash(b, s2);
    TokensAfterSlash(a, s1);
  }

  lemma BlockReadsBack(x: bytes, post: bytes)
    requires |x| < INT_MAX
    ensures ReadBlock(BlockBytes(x) + post) == Some((x, post))
  {
    var l := Little(|x|, 4);
    WordSizes();
    LittleRoundTrip(|x|, 4);
    Regroup4(ZERO4, l, x, post);
    BlockFromParts(ZERO4, l, x, post);
  }

  lemma BlockFromParts(flags: bytes, l: bytes, x: bytes, post: bytes)
    requires |flags| == 4 && |l| == 4 && FromLittle(l) == |x| < INT_MAX
    ensures ReadBlock(flags + (l + (x + post))) == Some((x, post))
  {
    TakeFront(flags, l + (x + post));
    TakeFront(l, x + post);
    TakeFront(x, post);
  }

  lemma KeyFromParts(rest: bytes, key: bytes, r1: bytes, val: bytes, r2: bytes)
    requires ReadBlock(rest) == Some((key, r1)) && |key| > 0 && ReadBlock(r1) == Some((val, r2))
    ensures ReadKey(rest) == ReadValue(PathOf(key), val, r2)
  {
  }

  /** Any key with any value, as the generator frames them. */
  lemma KeyReadsBack(key: bytes, val: bytes, post: bytes)
    requires |key| + 1 < INT_MAX && |val| < INT_MAX
    ensures ReadKey(KeyBytes(key, val) + post) == ReadValue(PathOf(key + [0]), val, post) && |KeyBytes(key, val)| > 12
  {
    BlockReadsBack(key + [0], BlockBytes(val) + post);
    BlockReadsBack(val, post);
    Regroup(BlockBytes(key + [0]), BlockBytes(val), post);
    KeyFromParts(KeyBytes(key, val) + post, key + [0], BlockBytes(val) + post, val, post);
  }

  /** A table under any key that names a PSVT table. */
  lemma KeyedTableReadsBack(key: bytes, name: bytes, t: Table, post: bytes)
    requires TableOk(t) && |ValueBytes(t)| < INT_MAX && |key| + 1 < INT_MAX &&
             PathOf(key + [0]) == KeyPath(Some(PSVT), Some(name))
    ensures ReadKey(KeyBytes(key, ValueBytes(t)) + post) == Some((Some(Psvt(name, PsvsOf(t.entries))), post))
  {
    KeyReadsBack(key, ValueBytes(t), post);
    ValueReadsBack(name, t);
    TableIsRead(name, key + [0], ValueBytes(t), post, Psvt(name, PsvsOf(t.entries)));
  }

  lemma TableReadsBack(t: Table, post: bytes)
    requires TableOk(t) && |ValueBytes(t)| < INT_MAX
    ensures ReadKey(TableBytes(t) + post) == Some((Some(PsvtOf(t)), post)) && |TableBytes(t)| > 12
  {
    assert |PREFIX| == 20;
    PathReadsBack(t.name);
    KeyReadsBack(PREFIX + t.name, ValueBytes(t), post);
    KeyedTableReadsBack(PREFIX + t.name, t.name, t, post);
  }

  lemma TableIsRead(name: bytes, key: bytes, val: bytes, post: bytes, table: Psvt)
    requires PathOf(key) == KeyPath(Some(PSVT), Some(name)) && ReadTable(name, val) == Some(table)
    ensures ReadValue(PathOf(key), val, post) == Some((Some(table), post))
  {
  }

  lemma FirstTable(ts: seq<Table>, junk: bytes)
    requires |ts| > 0 && TableOk(ts[0]) && |ValueBytes(ts[0])| < INT_MAX
    ensures ReadKey(TablesBytes(ts) + junk) == Some((Some(PsvtOf(ts[0])), TablesBytes(ts[1..]) + junk)) &&
            |TablesBytes(ts)| > 12
  {
    TableReadsBack(ts[0], TablesBytes(ts[1..]) + junk);
    Regroup(TableBytes(ts[0]), TablesBytes(ts[1..]), junk);
  }

  /** Tables, and what follows them: no more than a header's worth is left alone, and more than
      that must be another key. */
  lemma {:induction false} TablesReadBack(ts: seq<Table>, hs: nat, junk: bytes)
    requires hs <= 12
    requires forall i :: 0 <= i < |ts| ==> TableOk(ts[i]) && |ValueBytes(ts[i])| < INT_MAX
    ensures |junk| <= hs ==> ReadKeys(TablesBytes(ts) + junk, hs) == Parsed(PsvtsOf(ts), junk)
    ensures |junk| > hs && ReadKey(junk).None? ==> ReadKeys(TablesBytes(ts) + junk, hs) == Threw
    decreases |ts|
  {
    if |ts| > 0 {
      FirstTable(ts, junk);
      TablesReadBack(ts[1..], hs, junk);
      MoreKeys(TablesBytes(ts) + junk, hs, PsvtOf(ts[0]), TablesBytes(ts[1..]) + junk);
    } else {
      assert TablesBytes(ts) + junk == junk;
    }
  }

  lemma MoreKeys(rest: bytes, hs: nat, table: Psvt, rest': bytes)
    requires |rest| > hs && ReadKey(rest) == Some((Some(table), rest'))
    ensures ReadKeys(rest, hs) == WithTable(Some(table), ReadKeys(rest', hs))
  {
  }

  function SizeIn(h: bytes): nat
    requires |h| >= 4
  {
    h[2] as nat + 256 * (h[3] as nat)
  }

  /** The header, byte by byte: two of signature, two of size, four of version. */
  lemma HeaderDecides(h: bytes, post: bytes)
    requires |h| == 12 && |h + post| >= HEADER_STRUCT_SIZE
    ensures ReadVault(h + post) ==
            if h[0] != 0xE5 || h[1] != 0x1F then Threw
            else if h[7] == 2 then OtherVersion
            else if h[7] != 1 then ReturnedError
            else ReadKeys(Skip(h + post, SizeIn(h)), SizeIn(h))
  {
    var b := h + post;
    assert b[..2] == [h[0], h[1]] && b[2..4] == [h[2], h[3]] && b[4..8] == [h[4], h[5], h[6], h[7]];
    TwoBytes(h[0], h[1]);
    TwoBytes(h[2], h[3]);
    FourBytes(h[4], h[5], h[6], h[7]);
  }

  lemma TwoBytes(a: byte, b: byte)
    ensures FromLittle([a, b]) == a as nat + 256 * (b as nat)
  {
    var s := [a, b];
    var t := s[1..];
    assert t == [b] && t[1..] == [];
    assert FromLittle(t) == b as nat + 256 * FromLittle(t[1..]);
  }

  lemma FourBytes(a: byte, b: byte, c: byte, d: byte)
    ensures FromLittle([a, b, c, d]) / 0x100_0000 % 256 == d
  {
    var s := [a, b, c, d];
    var t := s[1..];
    assert t == [b, c, d] && t[1..] == [c, d];
    TwoBytes(c, d);
    assert FromLittle(t) == b as nat + 256 * (c as nat + 256 * (d as nat));
    assert FromLittle(s) == (a as nat + 256 * (b as nat) + 65536 * (c as nat)) + 0x100_0000 * (d as nat);
  }

  /** Print and parse: a generated file of at least the header structure's size is read back
      as the same tables in the same order, to its last byte; a shorter one is refused. */
  lemma VaultReadsBack(ts: seq<Table>)
    requires forall i :: 0 <= i < |ts| ==> TableOk(ts[i]) && |ValueBytes(ts[i])| < INT_MAX
    ensures ReadVault(VaultBytes(ts)) ==
            if |VaultBytes(ts)| < HEADER_STRUCT_SIZE then ReturnedError
            else Parsed(PsvtsOf(ts), [])
  {
    assert VaultBytes(ts) + [] == VaultBytes(ts);
    TrailingBytes(ts, [], VaultBytes(ts));
  }

  /** Bytes behind the last table are left alone up to the size of the header; more than that
      make the parser throw unless they are a key. */
  lemma TrailingBytes(ts: seq<Table>, junk: bytes, b: bytes)
    requires forall i :: 0 <= i < |ts| ==> TableOk(ts[i]) && |ValueBytes(ts[i])| < INT_MAX
    requires b == VaultBytes(ts) + junk
    ensures |b| < HEADER_STRUCT_SIZE ==> ReadVault(b) == ReturnedError
    ensures |b| >= HEADER_STRUCT_SIZE && |junk| <= 12 ==> ReadVault(b) == Parsed(PsvtsOf(ts), junk)
    ensures |b| >= HEADER_STRUCT_SIZE && |junk| > 12 && ReadKey(junk).None? ==> ReadVault(b) == Threw
  {
    var hs := 12;
    var r := VaultIsKeys(ts, junk, b, hs);
    TablesReadBack(ts, hs, junk);
  }

  lemma VaultIsKeys(ts: seq<Table>, junk: bytes, b: bytes, hs: nat) returns (r: ParseResult)
    requires b == VaultBytes(ts) + junk && hs == 12
    ensures r == ReadVault(b) &&
            r == if |b| < HEADER_STRUCT_SIZE then ReturnedError else ReadKeys(TablesBytes(ts) + junk, hs)
  {
    r := ReadVault(b);
    var h := HeaderFields();
    var post := TablesBytes(ts) + junk;
    assert b == h + post;
    if |b| >= HEADER_STRUCT_SIZE { GeneratedHeader(h, post); } else { ShortVault(b); }
  }

  lemma HeaderFields() returns (h: bytes)
    ensures h == HEADER && |h| == 12 && h[0] == 0xE5 && h[1] == 0x1F && h[7] == 1 && SizeIn(h) == 12
  {
    h := HEADER;
  }

  lemma ShortVault(b: bytes)
    requires |b| < HEADER_STRUCT_SIZE
    ensures ReadVault(b) == ReturnedError
  {
  }

  lemma GeneratedHeader(h: bytes, post: bytes)
    requires |h| == 12 && h[0] == 0xE5 && h[1] == 0x1F && h[7] == 1 && SizeIn(h) == 12
    requires |h + post| >= HEADER_STRUCT_SIZE
    ensures ReadVault(h + post) == ReadKeys(post, 12)
  {
    HeaderDecides(h, post);
    SkipHeader(h, post);
  }

  lemma SkipHeader(h: bytes, post: bytes)
    ensures Skip(h + post, |h|) == post
  {
  }

  // ---- Temperatures ----

  /** C's division truncates toward zero. */
  function TruncDiv(a: int, b: int): int
    requires b > 0
  {
    if a >= 0 then a / b else -(-a / b)
  }

  /** DECI_KELVIN_TO_CELSIUS. */
  function Celsius(t: int): int { if t - 2732 >= 0 then TruncDiv(t - 2732 + 5, 10) else TruncDiv(t - 2732 - 5, 10) }

  /** The generator's temperatures come back exactly from one degree up; from zero down the
      generator's 2727 makes them one degree colder. */
  lemma TemperatureReadsBack(t: int)
    ensures Celsius(DeciKelvin(t)) == t <==> t >= 1
    ensures t <= 0 ==> Celsius(DeciKelvin(t)) == t - 1
  {
  }
}
