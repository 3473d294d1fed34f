/** The GDDV data vault, version 1 layout, with its PSVT tables: what the reader accepts, as
    functions from the bytes that are left, and what the generator writes. */
module GddvFormat {
  import opened Words

  type bytes = seq<byte>

  const INT_MAX := 0x7FFF_FFFF
  const HEADER_STRUCT_SIZE := 148   // sizeof(struct header), the version 2 union included
  const SIGNATURE := 0x1FE5

  lemma Regroup(a: bytes, b: bytes, c: bytes)
    ensures a + b + c == a + (b + c)
  {
  }

  // ---- Little-endian integers and C strings ----

  function Little(v: int, n: nat): (s: bytes)
    ensures |s| == n
    decreases n
  {
    if n == 0 then [] else [v % 256] + Little(v / 256, n - 1)
  }

  function FromLittle(s: bytes): nat
  {
    if |s| == 0 then 0 else s[0] + 256 * FromLittle(s[1..])
  }

  function Pow256(n: nat): nat { if n == 0 then 1 else 256 * Pow256(n - 1) }

  lemma {:induction false} LittleRoundTrip(v: nat, n: nat)
    requires v < Pow256(n)
    ensures FromLittle(Little(v, n)) == v
  {
    if n > 0 {
      LittleRoundTrip(v / 256, n - 1);
      assert Little(v, n)[1..] == Little(v / 256, n - 1);
    }
  }

  lemma WordSizes()
    ensures Pow256(4) == WORD && Pow256(8) == WORD64
  {
    assert Pow256(4) == 256 * Pow256(3) == 65536 * Pow256(2);
    assert Pow256(8) == 65536 * Pow256(6) && Pow256(6) == 65536 * Pow256(4);
  }

  /** A C string: the bytes up to the first NUL, or to the NUL the reader puts at the end. */
  function UntilNul(s: bytes): bytes
  {
    if |s| == 0 || s[0] == 0 then [] else [s[0]] + UntilNul(s[1..])
  }

  predicate NulFree(s: bytes) { forall i :: 0 <= i < |s| ==> s[i] != 0 }

  lemma {:induction false} UntilNulStops(s: bytes, post: bytes)
    requires NulFree(s)
    ensures UntilNul(s + [0] + post) == s
  {
    if |s| == 0 {
      assert s + [0] + post == [0] + post;
    } else {
      UntilNulStops(s[1..], post);
      assert (s + [0] + post)[1..] == s[1..] + [0] + post;
    }
  }

  // ---- The reader ----

  datatype Psv = Psv(source: bytes, target: bytes, priority: int, samplePeriod: int, temp: int, domain: int,
                     controlKnob: int, limit: bytes, stepSize: int, limitCoeff: int, unlimitCoeff: int)

  datatype Psvt = Psvt(name: bytes, psvs: seq<Psv>)

  /** The next n bytes, when there are that many. */
  function Take(rest: bytes, n: nat): (r: Option<(bytes, bytes)>)
    ensures r.Some? ==> |r.value.0| == n && |r.value.1| == |rest| - n
  {
    if n <= |rest| then Some((rest[..n], rest[n..])) else None
  }

  /** get_uint64: tag 4, then eight bytes. None is the exception. */
  function ReadUint64(rest: bytes): (r: Option<(nat, bytes)>)
    ensures r.Some? ==> |r.value.1| < |rest|
  {
    var (tag, r1) :- Take(rest, 4);
    if FromLittle(tag) != 4 then None
    else
      var (v, r2) :- Take(r1, 8);
      Some((FromLittle(v), r2))
  }

  /** get_string: tag 8, a length, that many bytes. The string itself ends at its NUL, which
      nothing checks to be inside the declared length. */
  function ReadString(rest: bytes): (r: Option<(bytes, bytes)>)
    ensures r.Some? ==> |r.value.1| < |rest|
  {
    var (tag, r1) :- Take(rest, 4);
    if FromLittle(tag) != 8 then None
    else
      var (l, r2) :- Take(r1, 8);
      var length := FromLittle(l);
      if length > INT_MAX || length > |r2| then None else Some((UntilNul(r2), r2[length..]))
  }

  function Digit(d: nat): byte
    requires d < 10
  {
    48 + d
  }

  /** std::to_string of an unsigned value. */
  function Decimal(n: nat): bytes
  {
    if n < 10 then [Digit(n)] else Decimal(n / 10) + [Digit(n % 10)]
  }

  /** get_type decides between a named and a numeric limit. */
  function ReadLimit(rest: bytes): (r: Option<(bytes, bytes)>)
    ensures r.Some? ==> |r.value.1| < |rest|
  {
    var (tag, _) :- Take(rest, 4);
    if FromLittle(tag) == 8 then ReadString(rest)
    else
      var (v, rest') :- ReadUint64(rest);
      Some((Decimal(v), rest'))
  }

  function Skip(rest: bytes, n: nat): bytes { if n <= |rest| then rest[n..] else [] }

  /** Priority, sample period, temperature, domain and control knob. */
  function ReadFive(rest: bytes): (r: Option<((nat, nat, nat, nat, nat), bytes)>)
    ensures r.Some? ==> |r.value.1| < |rest|
  {
    var (a, r1) :- ReadUint64(rest);
    var (b, r2) :- ReadUint64(r1);
    var (c, r3) :- ReadUint64(r2);
    var (d, r4) :- ReadUint64(r3);
    var (e, r5) :- ReadUint64(r4);
    Some(((a, b, c, d, e), r5))
  }

  function ReadNames(rest: bytes): (r: Option<((bytes, bytes), bytes)>)
    ensures r.Some? ==> |r.value.1| < |rest|
  {
    var (source, r1) :- ReadString(rest);
    var (target, r2) :- ReadString(r1);
    Some(((source, target), r2))
  }

  /** Step size and the two coefficients. */
  function ReadThree(rest: bytes): (r: Option<((nat, nat, nat), bytes)>)
    ensures r.Some? ==> |r.value.1| < |rest|
  {
    var (a, r1) :- ReadUint64(rest);
    var (b, r2) :- ReadUint64(r1);
    var (c, r3) :- ReadUint64(r2);
    Some(((a, b, c), r3))
  }

  function ReadTail(rest: bytes): (r: Option<((bytes, (nat, nat, nat)), bytes)>)
    ensures r.Some? ==> |r.value.1| < |rest|
  {
    var (limit, r1) :- ReadLimit(rest);
    var (three, r2) :- ReadThree(r1);
    Some(((limit, three), Skip(r2, 12)))
  }

  function MakePsv(names: (bytes, bytes), five: (nat, nat, nat, nat, nat), tail: (bytes, (nat, nat, nat))): Psv
  {
    Psv(names.0, names.1, Int32(five.0), Int32(five.1), Int32(five.2), Int32(five.3), Int32(five.4),
        tail.0, Int32(tail.1.0), Int32(tail.1.1), Int32(tail.1.2))
  }

  function ReadPsv(rest: bytes): (r: Option<(Psv, bytes)>)
    ensures r.Some? ==> |r.value.1| < |rest|
  {
    var (names, r1) :- ReadNames(rest);
    var (five, r2) :- ReadFive(r1);
    var (tail, r3) :- ReadTail(r2);
    Some((MakePsv(names, five, tail), r3))
  }

  function ReadPsvs(rest: bytes): Option<seq<Psv>>
    decreases |rest|, 1
  {
    if |rest| == 0 then Some([]) else ReadMorePsvs(rest)
  }

  function ReadMorePsvs(rest: bytes): Option<seq<Psv>>
    decreases |rest|, 0
  {
    var (psv, rest') :- ReadPsv(rest);
    var more :- ReadPsvs(rest');
    Some([psv] + more)
  }

  /** parse_psvt: a version of at most 2, then records to the end. */
  function ReadTable(name: bytes, val: bytes): Option<Psvt>
  {
    var (version, rest) :- ReadUint64(val);
    if Int32(version) > 2 then None
    else
      var psvs :- ReadPsvs(rest);
      Some(Psvt(name, psvs))
  }

  const SLASH: byte := 47

  /** strtok with "/": the non-empty pieces. */
  function Tokens(s: bytes): seq<bytes>
    decreases |s|
  {
    if |s| == 0 then []
    else if s[0] == SLASH then Tokens(s[1..])
    else
      var t := Token(s);
      [t] + Tokens(s[|t|..])
  }

  function Token(s: bytes): (t: bytes)
    ensures |t| <= |s| && (|s| > 0 && s[0] != SLASH ==> |t| > 0)
  {
    if |s| == 0 || s[0] == SLASH then [] else [s[0]] + Token(s[1..])
  }

  // ASCII text
  const PARTICIPANTS: bytes := [112, 97, 114, 116, 105, 99, 105, 112, 97, 110, 116, 115]   // "participants"
  const SHARED: bytes := [115, 104, 97, 114, 101, 100]   // "shared"
  const TABLES: bytes := [116, 97, 98, 108, 101, 115]   // "tables"
  const PSVT: bytes := [112, 115, 118, 116]   // "psvt"
  const DEFAULT: bytes := [68, 101, 102, 97, 117, 108, 116]   // "Default"
  const MIN: bytes := [77, 73, 78]   // "MIN"
  const MAX: bytes := [77, 65, 88]   // "MAX"

  function Nth(ts: seq<bytes>, i: nat): Option<bytes> { if i < |ts| then Some(ts[i]) else None }

  /** Where parse_gddv_key finds the table type and the table name in a key. */
  datatype KeyPath = KeyPath(kind: Option<bytes>, name: Option<bytes>)

  function PathOf(key: bytes): KeyPath
  {
    var ts := Tokens(UntilNul(key));
    if |ts| == 0 then KeyPath(None, None)
    else if ts[0] == PARTICIPANTS then KeyPath(Nth(ts, 2), if |ts| > 3 then Nth(ts, 3) else Nth(ts, 1))
    else if ts[0] == SHARED then KeyPath(Nth(ts, 2), if Nth(ts, 1) == Some(TABLES) then Nth(ts, 3) else None)
    else KeyPath(None, None)
  }

  /** Four bytes of flags or type, a length, that many bytes. */
  function ReadBlock(rest: bytes): (r: Option<(bytes, bytes)>)
    ensures r.Some? ==> |r.value.1| < |rest|
  {
    var (_, r1) :- Take(rest, 4);
    var (l, r2) :- Take(r1, 4);
    if FromLittle(l) >= INT_MAX then None else Take(r2, FromLittle(l))
  }

  /** parse_gddv_key: a key block that must not be empty, then a value block. */
  function ReadKey(rest: bytes): (r: Option<(Option<Psvt>, bytes)>)
    ensures r.Some? ==> |r.value.1| < |rest|
  {
    var (key, r1) :- ReadBlock(rest);
    if |key| == 0 then None
    else
      var (val, r2) :- ReadBlock(r1);
      ReadValue(PathOf(key), val, r2)
  }

  /** Tables of other kinds are passed over. */
  function ReadValue(path: KeyPath, val: bytes, rest: bytes): (r: Option<(Option<Psvt>, bytes)>)
    ensures r.Some? ==> r.value.1 == rest
  {
    if path.kind != Some(PSVT) then Some((None, rest))
    else
      var table :- ReadTable(if path.name.Some? then path.name.value else DEFAULT, val);
      Some((Some(table), rest))
  }

  datatype ParseResult = Threw | ReturnedError | OtherVersion | Parsed(tables: seq<Psvt>, unread: bytes)

  /** The key loop: it stops when no more than a header's worth of bytes is left. */
  function ReadKeys(rest: bytes, headerSize: nat): ParseResult
    decreases |rest|, 1
  {
    if |rest| <= headerSize then Parsed([], rest) else ReadMoreKeys(rest, headerSize)
  }

  function ReadMoreKeys(rest: bytes, headerSize: nat): ParseResult
    decreases |rest|, 0
  {
    var k := ReadKey(rest);
    if k.None? then Threw else WithTable(k.value.0, ReadKeys(k.value.1, headerSize))
  }

  function WithTable(table: Option<Psvt>, r: ParseResult): ParseResult
  {
    if r.Parsed? && table.Some? then r.(tables := [table.value] + r.tables) else r
  }

  /** parse_gddv on a version 1 vault. */
  function ReadVault(b: bytes): ParseResult
  {
    if |b| < HEADER_STRUCT_SIZE then ReturnedError
    else if FromLittle(b[..2]) != SIGNATURE then Threw
    else
      var major := FromLittle(b[4..8]) / 0x100_0000 % 256;
      if major == 2 then OtherVersion
      else if major != 1 then ReturnedError
      else ReadKeys(Skip(b, FromLittle(b[2..4])), FromLittle(b[2..4]))
  }

  // ---- The generator ----

  datatype Limit = LimitMin | LimitMax | LimitNumber(n: nat)

  /** A record of the generator's input; numbers are given as decimal strings there. */
  datatype Entry = Entry(source: bytes, target: bytes, priority: nat, samplePeriod: nat, temperature: int, domain: nat,
                         controlKnob: nat, limit: Limit, stepSize: nat, limitCoeff: nat, unlimitCoeff: nat)

  datatype Table = Table(name: bytes, entries: seq<Entry>)

  const TAG_UINT64: bytes := [4, 0, 0, 0]
  const TAG_STRING: bytes := [8, 0, 0, 0]

  function Uint64Bytes(v: int): bytes { TAG_UINT64 + Little(v, 8) }

  function StringBytes(s: bytes): bytes { TAG_STRING + (Little(|s| + 1, 8) + (s + [0])) }

  function LimitBytes(l: Limit): bytes
  {
    match l
    case LimitMin => StringBytes(MIN)
    case LimitMax => StringBytes(MAX)
    case LimitNumber(n) => Uint64Bytes(n)
  }

  function LimitText(l: Limit): bytes
  {
    match l
    case LimitMin => MIN
    case LimitMax => MAX
    case LimitNumber(n) => Decimal(n)
  }

  const PADDING: bytes := [0, 0, 0, 0, 0, 0, 0, 0, 0, 0, 0, 0]

  /** Tenths of a Kelvin, as the generator writes them. */
  function DeciKelvin(t: int): int { t * 10 + 2727 }

  function NameBytes(e: Entry): bytes { StringBytes(e.source) + StringBytes(e.target) }

  function FiveBytes(a: int, b: int, c: int, d: int, k: int): bytes
  {
    Uint64Bytes(a) + Uint64Bytes(b) + Uint64Bytes(c) + Uint64Bytes(d) + Uint64Bytes(k)
  }

  function NumberBytes(e: Entry): bytes
  {
    FiveBytes(e.priority, e.samplePeriod, DeciKelvin(e.temperature), e.domain, e.controlKnob)
  }

  function TailBytes(e: Entry): bytes
  {
    LimitBytes(e.limit) + Uint64Bytes(e.stepSize) + Uint64Bytes(e.limitCoeff) + Uint64Bytes(e.unlimitCoeff) + PADDING
  }

  function EntryBytes(e: Entry): bytes { NameBytes(e) + NumberBytes(e) + TailBytes(e) }

  /** The images of a list, one after the other. */
  function Cat<T>(image: T -> bytes, xs: seq<T>): bytes
  {
    if |xs| == 0 then [] else image(xs[0]) + Cat(image, xs[1..])
  }

  function EntriesBytes(es: seq<Entry>): bytes { Cat(EntryBytes, es) }

  function ValueBytes(t: Table): bytes
  {
    Uint64Bytes(2) + EntriesBytes(t.entries)
  }

  const ZERO4: bytes := [0, 0, 0, 0]

  function BlockBytes(x: bytes): bytes { ZERO4 + Little(|x|, 4) + x }

  function KeyBytes(key: bytes, val: bytes): bytes { BlockBytes(key + [0]) + BlockBytes(val) }

  // "/shared/tables/psvt/"
  const PREFIX: bytes := [SLASH] + SHARED + ([SLASH] + TABLES + ([SLASH] + PSVT + [SLASH]))

  function TableBytes(t: Table): bytes
  {
    KeyBytes(PREFIX + t.name, ValueBytes(t))
  }

  const HEADER: bytes := [0xE5, 0x1F, 0x0C, 0, 0, 0, 0, 1, 0, 0, 0, 0]

  function TablesBytes(ts: seq<Table>): bytes { Cat(TableBytes, ts) }

  /** The whole file. */
  function VaultBytes(ts: seq<Table>): bytes
  {
    HEADER + TablesBytes(ts)
  }
}
