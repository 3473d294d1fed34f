/** What a key says: whose table it is and of which kind. */
module GddvKeys {
  import opened Words
  import opened GddvFormat
  import opened GddvRoundTrip

  /** The bytes of a text. */
  function Ascii(s: string): bytes
    requires forall i :: 0 <= i < |s| ==> s[i] as int < 128
  {
    seq(|s|, i requires 0 <= i < |s| => s[i] as int)
  }

  lemma NamesAreText()
    ensures PARTICIPANTS == Ascii("participants") && SHARED == Ascii("shared") && TABLES == Ascii("tables")
    ensures PSVT == Ascii("psvt") && DEFAULT == Ascii("Default") && MIN == Ascii("MIN") && MAX == Ascii("MAX")
  {
  }

  /** /a/b/c */
  function Path(ts: seq<bytes>): bytes { if |ts| == 0 then [] else [SLASH] + ts[0] + Path(ts[1..]) }

  predicate IsName(t: bytes) { IsToken(t) && NulFree(t) }

  predicate AreNames(ts: seq<bytes>) { forall i :: 0 <= i < |ts| ==> IsName(ts[i]) }

  lemma {:induction false} TokensOfPath(ts: seq<bytes>)
    requires AreNames(ts)
    ensures Tokens(Path(ts)) == ts && NulFree(Path(ts)) && (|ts| > 0 ==> Path(ts)[0] == SLASH)
    decreases |ts|
  {
    if |ts| > 0 {
      TokensOfPath(ts[1..]);
      TokensAfterSlash(ts[0], Path(ts[1..]));
      assert ts == [ts[0]] + ts[1..];
    }
  }

  /** The components of a key, as they are read. */
  lemma KeyTokens(ts: seq<bytes>)
    requires AreNames(ts)
    ensures Tokens(UntilNul(Path(ts) + [0])) == ts
  {
    TokensOfPath(ts);
    UntilNulStops(Path(ts), []);
    assert Path(ts) + [0] + [] == Path(ts) + [0];
  }

  lemma Texts()
    ensures IsName(PARTICIPANTS) && IsName(SHARED) && IsName(TABLES) && IsName(PSVT) && PARTICIPANTS != SHARED
  {
    assert |PARTICIPANTS| != |SHARED|;
  }

  /** /participants/name/kind is that participant's table, and /participants/name/kind/point the
      point's. */
  lemma ParticipantKey(name: bytes, kind: bytes, point: bytes)
    requires IsName(name) && IsName(kind) && IsName(point)
    ensures PathOf(Path([PARTICIPANTS, name, kind]) + [0]) == KeyPath(Some(kind), Some(name))
    ensures PathOf(Path([PARTICIPANTS, name, kind, point]) + [0]) == KeyPath(Some(kind), Some(point))
  {
    Texts();
    KeyTokens([PARTICIPANTS, name, kind]);
    KeyTokens([PARTICIPANTS, name, kind, point]);
  }

  /** /shared/tables/kind/point is the point's, /shared/tables/kind nobody's; nor is anything
      else under /shared. */
  lemma SharedKey(kind: bytes, point: bytes, other: bytes)
    requires IsName(kind) && IsName(point) && IsName(other) && other != TABLES
    ensures PathOf(Path([SHARED, TABLES, kind, point]) + [0]) == KeyPath(Some(kind), Some(point))
    ensures PathOf(Path([SHARED, TABLES, kind]) + [0]) == KeyPath(Some(kind), None)
    ensures PathOf(Path([SHARED, other, kind, point]) + [0]) == KeyPath(Some(kind), None)
  {
    Texts();
    KeyTokens([SHARED, TABLES, kind, point]);
    KeyTokens([SHARED, TABLES, kind]);
    KeyTokens([SHARED, other, kind, point]);
  }

  /** A key that is too short, or under anything else, has neither kind nor name. */
  lemma OtherKey(first: bytes, rest: seq<bytes>)
    requires IsName(first) && AreNames(rest) && first != PARTICIPANTS && first != SHARED
    ensures PathOf(Path([first] + rest) + [0]) == KeyPath(None, None)
  {
    KeyTokens([first] + rest);
  }

  lemma EmptyKey()
    ensures PathOf([0]) == KeyPath(None, None)
  {
    KeyTokens([]);
    assert Path([]) + [0] == [0];
  }

  // ---- Tables under such keys ----

  lemma PathSize(ts: seq<bytes>)
    ensures |ts| == 3 ==> |Path(ts)| == 3 + |ts[0]| + |ts[1]| + |ts[2]|
    ensures |ts| == 4 ==> |Path(ts)| == 4 + |ts[0]| + |ts[1]| + |ts[2]| + |ts[3]|
  {
    if 3 <= |ts| <= 4 {
      var a := ts[1..];
      var b := a[1..];
      var c := b[1..];
      assert |Path(ts)| == 1 + |ts[0]| + |Path(a)| && |Path(a)| == 1 + |a[0]| + |Path(b)| &&
             |Path(b)| == 1 + |b[0]| + |Path(c)|;
      assert |ts| == 4 ==> |c[1..]| == 0 && |Path(c)| == 1 + |c[0]|;
    }
  }

  /** A PSVT table under a participant's key is read as that participant's, and with a point as
      the point's. */
  lemma ParticipantTableReadsBack(name: bytes, point: bytes, t: Table, post: bytes)
    requires IsName(name) && IsName(point) && |name| + |point| + 32 < INT_MAX && TableOk(t) && |ValueBytes(t)| < INT_MAX
    ensures ReadKey(KeyBytes(Path([PARTICIPANTS, name, PSVT]), ValueBytes(t)) + post) ==
            Some((Some(Psvt(name, PsvsOf(t.entries))), post))
    ensures ReadKey(KeyBytes(Path([PARTICIPANTS, name, PSVT, point]), ValueBytes(t)) + post) ==
            Some((Some(Psvt(point, PsvsOf(t.entries))), post))
  {
    Texts();
    ParticipantKey(name, PSVT, point);
    PathSize([PARTICIPANTS, name, PSVT]);
    PathSize([PARTICIPANTS, name, PSVT, point]);
    KeyedTableReadsBack(Path([PARTICIPANTS, name, PSVT]), name, t, post);
    KeyedTableReadsBack(Path([PARTICIPANTS, name, PSVT, point]), point, t, post);
  }

  /** A PSVT table under /shared/tables without a name of its own is the default one. */
  lemma DefaultTableReadsBack(t: Table, post: bytes)
    requires TableOk(t) && |ValueBytes(t)| < INT_MAX
    ensures ReadKey(KeyBytes(Path([SHARED, TABLES, PSVT]), ValueBytes(t)) + post) ==
            Some((Some(Psvt(DEFAULT, PsvsOf(t.entries))), post))
  {
    Texts();
    SharedKey(PSVT, PSVT, PSVT);
    PathSize([SHARED, TABLES, PSVT]);
    KeyReadsBack(Path([SHARED, TABLES, PSVT]), ValueBytes(t), post);
    ValueReadsBack(DEFAULT, t);
  }

  /** A value of another kind is passed over, whatever it holds. */
  lemma OtherKindIsPassedOver(name: bytes, kind: bytes, val: bytes, post: bytes)
    requires IsName(name) && IsName(kind) && kind != PSVT && |name| + |kind| + 32 < INT_MAX && |val| < INT_MAX
    ensures ReadKey(KeyBytes(Path([PARTICIPANTS, name, kind]), val) + post) == Some((None, post))
  {
    ParticipantKey(name, kind, kind);
    PathSize([PARTICIPANTS, name, kind]);
    KeyReadsBack(Path([PARTICIPANTS, name, kind]), val, post);
  }
}
