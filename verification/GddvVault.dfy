/** The generator and the parser as they work: one appends to a buffer, the other moves an
    offset through one. */
module GddvVault {
  import opened Words
  import opened GddvFormat

  class Generator {
    var data: bytes
    var file: bytes

    constructor ()
      ensures data == [] && file == []
    {
      data, file := [], [];
    }

    method CreateUint64(value: int)
      requires 0 <= value < WORD64
      modifies this`data
      ensures data == old(data) + Uint64Bytes(value)
    {
      data := data + TAG_UINT64 + Little(value, 8);
    }

    method CreateString(value: bytes)
      modifies this`data
      ensures data == old(data) + StringBytes(value)
    {
      data := data + TAG_STRING + Little(|value| + 1, 8) + (value + [0]);
    }

    method CreateKey(key: bytes, val: bytes)
      requires |key| + 1 < WORD && |val| < WORD
      modifies this`data
      ensures data == old(data) + KeyBytes(key, val)
    {
      ghost var d0 := data;
      data := data + ZERO4 + Little(|key| + 1, 4) + (key + [0]);
      Appended5(d0, ZERO4, Little(|key| + 1, 4), key + [0], [], []);
      ghost var d1 := data;
      data := data + ZERO4 + Little(|val|, 4) + val;
      Appended5(d1, ZERO4, Little(|val|, 4), val, [], []);
      Regroup(d0, BlockBytes(key + [0]), BlockBytes(val));
    }

    method CreateHeader()
      modifies this`data
      ensures data == HEADER
    {
      data := HEADER;
    }

    method CreateLimit(l: Limit)
      requires l.LimitNumber? ==> l.n < WORD64
      modifies this`data
      ensures data == old(data) + LimitBytes(l)
    {
      match l
      case LimitMin => CreateString(MIN);
      case LimitMax => CreateString(MAX);
      case LimitNumber(n) => CreateUint64(n);
    }

    method CreateThree(a: int, b: int, c: int)
      requires 0 <= a < WORD64 && 0 <= b < WORD64 && 0 <= c < WORD64
      modifies this`data
      ensures data == old(data) + (Uint64Bytes(a) + Uint64Bytes(b) + Uint64Bytes(c))
    {
      ghost var d0 := data;
      CreateUint64(a);
      CreateUint64(b);
      CreateUint64(c);
      Regroup(d0, Uint64Bytes(a), Uint64Bytes(b));
      Regroup(d0, Uint64Bytes(a) + Uint64Bytes(b), Uint64Bytes(c));
    }

    method CreateNumbers(e: Entry)
      requires EntryFits(e)
      modifies this`data
      ensures data == old(data) + NumberBytes(e)
    {
      var temperature := e.temperature * 10 + 2727;
      CreateFive(e.priority, e.samplePeriod, temperature, e.domain, e.controlKnob);
    }

    method CreateFive(a: nat, b: nat, c: nat, d: nat, k: nat)
      requires a < WORD64 && b < WORD64 && c < WORD64 && d < WORD64 && k < WORD64
      modifies this`data
      ensures data == old(data) + FiveBytes(a, b, c, d, k)
    {
      ghost var d0 := data;
      CreateThree(a, b, c);
      CreateTwo(d, k, Uint64Bytes(a) + Uint64Bytes(b) + Uint64Bytes(c), d0);
    }

    /** Two more numbers behind `some` bytes. */
    method CreateTwo(a: nat, b: nat, ghost some: bytes, ghost before: bytes)
      requires a < WORD64 && b < WORD64 && data == before + some
      modifies this`data
      ensures data == before + (some + Uint64Bytes(a) + Uint64Bytes(b))
    {
      CreateUint64(a);
      CreateUint64(b);
      Regroup(before, some, Uint64Bytes(a));
      Regroup(before, some + Uint64Bytes(a), Uint64Bytes(b));
    }

    method CreateTail(e: Entry)
      requires EntryFits(e)
      modifies this`data
      ensures data == old(data) + TailBytes(e)
    {
      ghost var d0 := data;
      CreateLimit(e.limit);
      CreateUint64(e.stepSize);
      CreateUint64(e.limitCoeff);
      CreateUint64(e.unlimitCoeff);
      data := data + PADDING;
      Appended5(d0, LimitBytes(e.limit), Uint64Bytes(e.stepSize), Uint64Bytes(e.limitCoeff),
                Uint64Bytes(e.unlimitCoeff), PADDING);
    }

    method CreateEntry(e: Entry)
      requires EntryFits(e)
      modifies this`data
      ensures data == old(data) + EntryBytes(e)
    {
      ghost var d0 := data;
      CreateString(e.source);
      CreateString(e.target);
      Regroup(d0, StringBytes(e.source), StringBytes(e.target));
      CreateNumbers(e);
      Regroup(d0, NameBytes(e), NumberBytes(e));
      CreateTail(e);
      Regroup(d0, NameBytes(e) + NumberBytes(e), TailBytes(e));
    }

    /** A table's version and its records. */
    method CreateValue(t: Table)
      requires data == [] && forall i :: 0 <= i < |t.entries| ==> EntryFits(t.entries[i])
      modifies this`data
      ensures data == ValueBytes(t)
    {
      CreateUint64(2);
      assert EntriesBytes(t.entries[..0]) == [];
      for i := 0 to |t.entries|
        invariant data == Uint64Bytes(2) + EntriesBytes(t.entries[..i])
      {
        ghost var done := EntriesBytes(t.entries[..i]);
        CreateEntry(t.entries[i]);
        CatAppend(EntryBytes, t.entries, i);
        Regroup(Uint64Bytes(2), done, EntryBytes(t.entries[i]));
      }
      assert t.entries[..|t.entries|] == t.entries;
    }

    /** Each table's records go to `data`, then under their key to the file. */
    method CreatePsvt(tables: seq<Table>)
      requires forall i :: 0 <= i < |tables| ==> TableFits(tables[i])
      modifies this
      ensures file == old(file) + TablesBytes(tables) && data == []
    {
      data := [];
      ghost var file0 := file;
      assert TablesBytes(tables[..0]) == [] && file0 + [] == file0;
      for index := 0 to |tables|
        invariant data == [] && file == file0 + TablesBytes(tables[..index])
      {
        var t := tables[index];
        CreateValue(t);
        var psvtEntry := data;
        data := [];
        CreateKey(PREFIX + t.name, psvtEntry);
        assert data == TableBytes(t);
        ghost var written := TablesBytes(tables[..index]);
        file := file + data;
        data := [];
        CatAppend(TableBytes, tables, index);
        Regroup(file0, written, TableBytes(t));
      }
      assert tables[..|tables|] == tables;
    }

    method CreateGddv(tables: seq<Table>)
      requires file == [] && forall i :: 0 <= i < |tables| ==> TableFits(tables[i])
      modifies this
      ensures file == VaultBytes(tables)
    {
      CreateHeader();
      file := file + data;
      assert [] + HEADER == HEADER;
      CreatePsvt(tables);
    }
  }

  predicate EntryFits(e: Entry)
  {
    e.priority < WORD64 && e.samplePeriod < WORD64 && 0 <= DeciKelvin(e.temperature) < WORD64 &&
    e.domain < WORD64 && e.controlKnob < WORD64 && (e.limit.LimitNumber? ==> e.limit.n < WORD64) &&
    e.stepSize < WORD64 && e.limitCoeff < WORD64 && e.unlimitCoeff < WORD64
  }

  predicate TableFits(t: Table)
  {
    (forall i :: 0 <= i < |t.entries| ==> EntryFits(t.entries[i])) && |t.name| + 21 < WORD && |ValueBytes(t)| < WORD
  }

  lemma Appended5(d: bytes, b1: bytes, b2: bytes, b3: bytes, b4: bytes, b5: bytes)
    ensures d + b1 + b2 + b3 + b4 + b5 == d + (b1 + b2 + b3 + b4 + b5)
  {
    Regroup(d, b1, b2);
    Regroup(d, b1 + b2, b3);
    Regroup(d, b1 + b2 + b3, b4);
    Regroup(d, b1 + b2 + b3 + b4, b5);
  }

  lemma {:induction false} CatAppend<T>(image: T -> bytes, xs: seq<T>, k: nat)
    requires k < |xs|
    ensures Cat(image, xs[..k + 1]) == Cat(image, xs[..k]) + image(xs[k])
    decreases k
  {
    if k == 0 {
      assert xs[..1] == [xs[0]] && xs[..0] == [];
      assert [xs[0]][1..] == [];
    } else {
      CatAppend(image, xs[1..], k - 1);
      assert xs[..k + 1][1..] == xs[1..][..k] && xs[..k][1..] == xs[1..][..k - 1];
      Regroup(image(xs[0]), Cat(image, xs[1..][..k - 1]), image(xs[k]));
    }
  }

  // ---- The parser ----

  lemma SkipTake(buf: bytes, offset: nat, n: nat)
    ensures Take(Skip(buf, offset), n) ==
            if n == 0 && offset > |buf| then Some(([], []))
            else if offset + n <= |buf| then Some((buf[offset..offset + n], Skip(buf, offset + n))) else None
  {
    if offset + n <= |buf| {
      assert buf[offset..][..n] == buf[offset..offset + n] && buf[offset..][n..] == buf[offset + n..];
    }
  }

  lemma SkipSkip(buf: bytes, offset: nat, n: nat)
    ensures Skip(Skip(buf, offset), n) == Skip(buf, offset + n)
  {
    if offset + n <= |buf| { assert buf[offset..][n..] == buf[offset + n..]; }
  }

  method GetUint64(buf: bytes, offset: nat) returns (ok: bool, value: nat, end: nat)
    ensures ReadUint64(Skip(buf, offset)) == if ok then Some((value, Skip(buf, end))) else None
    ensures ok ==> offset < end <= |buf|
  {
    SkipTake(buf, offset, 4);
    SkipTake(buf, offset + 4, 8);
    ok, value, end := false, 0, offset;
    if end + 4 > |buf| {
      return;
    }
    if FromLittle(buf[end..end + 4]) != 4 {
      return;
    }
    end := end + 4;
    if end + 8 > |buf| {
      return;
    }
    ok, value, end := true, FromLittle(buf[end..end + 8]), end + 8;
  }

  method GetString(buf: bytes, offset: nat) returns (ok: bool, value: bytes, end: nat)
    ensures ReadString(Skip(buf, offset)) == if ok then Some((value, Skip(buf, end))) else None
    ensures ok ==> offset < end <= |buf|
  {
    SkipTake(buf, offset, 4);
    SkipTake(buf, offset + 4, 8);
    ok, value, end := false, [], offset;
    if end + 4 > |buf| {
      return;
    }
    if FromLittle(buf[end..end + 4]) != 8 {
      return;
    }
    end := end + 4;
    if end + 8 > |buf| {
      return;
    }
    var length := FromLittle(buf[end..end + 8]);
    end := end + 8;
    if length > INT_MAX || end + length > |buf| {
      return;
    }
    SkipSkip(buf, end, length);
    value := CString(buf, end);
    ok, end := true, end + length;
  }

  /** The std::string made from a pointer into the buffer, which ends with a NUL of the reader's own. */
  method CString(buf: bytes, offset: nat) returns (s: bytes)
    requires offset <= |buf|
    ensures s == UntilNul(buf[offset..])
  {
    var i := offset;
    s := [];
    while i < |buf| && buf[i] != 0
      invariant offset <= i <= |buf| && UntilNul(buf[offset..]) == s + UntilNul(buf[i..])
    {
      assert buf[i..][1..] == buf[i + 1..];
      assert s + ([buf[i]] + UntilNul(buf[i + 1..])) == s + [buf[i]] + UntilNul(buf[i + 1..]);
      s := s + [buf[i]];
      i := i + 1;
    }
  }

  method GetLimit(buf: bytes, offset: nat) returns (ok: bool, value: bytes, end: nat)
    ensures ReadLimit(Skip(buf, offset)) == if ok then Some((value, Skip(buf, end))) else None
    ensures ok ==> offset < end <= |buf|
  {
    SkipTake(buf, offset, 4);
    ok, value, end := false, [], offset;
    if offset + 4 > |buf| {
      return;
    }
    if FromLittle(buf[offset..offset + 4]) == 8 {
      ok, value, end := GetString(buf, offset);
    } else {
      var n;
      ok, n, end := GetUint64(buf, offset);
      value := Decimal(n);
    }
  }

  method GetFive(buf: bytes, offset: nat) returns (ok: bool, v: (nat, nat, nat, nat, nat), end: nat)
    ensures ReadFive(Skip(buf, offset)) == if ok then Some((v, Skip(buf, end))) else None
    ensures ok ==> offset < end <= |buf|
  {
    var a, b, c, d, e;
    v := (0, 0, 0, 0, 0);
    ok, a, end := GetUint64(buf, offset);
    if ok { ok, b, end := GetUint64(buf, end); }
    if ok { ok, c, end := GetUint64(buf, end); }
    if ok { ok, d, end := GetUint64(buf, end); }
    if ok {
      ok, e, end := GetUint64(buf, end);
      v := (a, b, c, d, e);
    }
  }

  method GetThree(buf: bytes, offset: nat) returns (ok: bool, v: (nat, nat, nat), end: nat)
    ensures ReadThree(Skip(buf, offset)) == if ok then Some((v, Skip(buf, end))) else None
    ensures ok ==> offset < end <= |buf|
  {
    var a, b, c;
    v := (0, 0, 0);
    ok, a, end := GetUint64(buf, offset);
    if ok { ok, b, end := GetUint64(buf, end); }
    if ok {
      ok, c, end := GetUint64(buf, end);
      v := (a, b, c);
    }
  }

  method GetNames(buf: bytes, offset: nat) returns (ok: bool, v: (bytes, bytes), end: nat)
    ensures ReadNames(Skip(buf, offset)) == if ok then Some((v, Skip(buf, end))) else None
    ensures ok ==> offset < end <= |buf|
  {
    var source, target;
    v := ([], []);
    ok, source, end := GetString(buf, offset);
    if ok {
      ok, target, end := GetString(buf, end);
      v := (source, target);
    }
  }

  method GetTail(buf: bytes, offset: nat) returns (ok: bool, v: (bytes, (nat, nat, nat)), end: nat)
    ensures ReadTail(Skip(buf, offset)) == if ok then Some((v, Skip(buf, end))) else None
    ensures ok ==> offset < end
  {
    var limit, three;
    v := ([], (0, 0, 0));
    ok, limit, end := GetLimit(buf, offset);
    if ok { ok, three, end := GetThree(buf, end); }
    if ok {
      SkipSkip(buf, end, 12);
      end := end + 12;
      v := (limit, three);
    }
  }

  method GetPsv(buf: bytes, offset: nat) returns (r: Option<Psv>, end: nat)
    ensures ReadPsv(Skip(buf, offset)) == if r.Some? then Some((r.value, Skip(buf, end))) else None
    ensures r.Some? ==> offset < end
  {
    var ok, names, five, tail;
    r := None;
    ok, names, end := GetNames(buf, offset);
    if ok { ok, five, end := GetFive(buf, end); }
    if ok { ok, tail, end := GetTail(buf, end); }
    if ok { r := Some(MakePsv(names, five, tail)); }
  }

  function Joined(ps: seq<Psv>, r: Option<seq<Psv>>): Option<seq<Psv>> { if r.None? then None else Some(ps + r.value) }

  function PsvsFrom(buf: bytes, offset: nat): Option<seq<Psv>> { ReadPsvs(Skip(buf, offset)) }

  /** One record off the front of a list of them. */
  method NextPsv(buf: bytes, offset: nat, ghost before: seq<Psv>) returns (r: Option<Psv>, end: nat)
    requires offset < |buf|
    ensures Joined(before, PsvsFrom(buf, offset)) ==
            if r.None? then None else Joined(before + [r.value], PsvsFrom(buf, end))
    ensures r.Some? ==> offset < end
  {
    r, end := GetPsv(buf, offset);
    UnfoldPsvs(Skip(buf, offset));
    if r.Some? { JoinedNext(before, r.value, PsvsFrom(buf, end)); }
  }

  /** parse_psvt's loop. */
  method GetPsvs(buf: bytes, start: nat) returns (r: Option<seq<Psv>>)
    ensures r == PsvsFrom(buf, start)
  {
    var offset, psvs := start, [];
    ghost var whole := PsvsFrom(buf, start);
    JoinedNone(whole);
    while offset < |buf|
      invariant whole == Joined(psvs, PsvsFrom(buf, offset))
      decreases |buf| - offset
    {
      var psv, end := NextPsv(buf, offset, psvs);
      if psv.None? {
        return None;
      }
      psvs, offset := psvs + [psv.value], end;
    }
    PsvsEnd(buf, offset, psvs);
    r := Some(psvs);
  }

  lemma JoinedNone(r: Option<seq<Psv>>)
    ensures Joined([], r) == r
  {
    if r.Some? { assert [] + r.value == r.value; }
  }

  lemma PsvsEnd(buf: bytes, offset: nat, before: seq<Psv>)
    requires offset >= |buf|
    ensures Joined(before, PsvsFrom(buf, offset)) == Some(before)
  {
    assert before + [] == before;
  }

  lemma UnfoldPsvs(rest: bytes)
    requires |rest| > 0
    ensures var p := ReadPsv(rest); ReadPsvs(rest) == if p.None? then None else Joined([p.value.0], ReadPsvs(p.value.1))
  {
  }

  lemma JoinedNext(ps: seq<Psv>, p: Psv, r: Option<seq<Psv>>)
    ensures Joined(ps, Joined([p], r)) == Joined(ps + [p], r)
  {
    if r.Some? { assert ps + ([p] + r.value) == ps + [p] + r.value; }
  }

  /** The header and the bytes of a key or of a value. */
  method GetBlock(buf: bytes, offset: nat) returns (ok: bool, block: bytes, end: nat)
    requires offset <= |buf|
    ensures ReadBlock(Skip(buf, offset)) == if ok then Some((block, Skip(buf, end))) else None
    ensures ok ==> offset < end <= |buf|
  {
    SkipTake(buf, offset, 4);
    SkipTake(buf, offset + 4, 4);
    ok, block, end := false, [], offset;
    if offset + 8 > |buf| {
      return;
    }
    var length := FromLittle(buf[offset + 4..offset + 8]);
    SkipTake(buf, offset + 8, length);
    if length >= INT_MAX || offset + 8 + length > |buf| {
      return;
    }
    ok, block, end := true, buf[offset + 8..offset + 8 + length], offset + 8 + length;
  }

  class Vault {
    var psvts: seq<Psvt>

    constructor ()
      ensures psvts == []
    {
      psvts := [];
    }

    /** An exception leaves the tables read so far. */
    method ParsePsvt(name: bytes, buf: bytes) returns (ok: bool)
      modifies this
      ensures match ReadTable(name, buf)
              case None => !ok && psvts == old(psvts)
              case Some(t) => ok && psvts == old(psvts) + [t]
    {
      var version, offset;
      ok, version, offset := GetUint64(buf, 0);
      assert Skip(buf, 0) == buf;
      if !ok || Int32(version) > 2 {
        return false;
      }
      var psvs := GetPsvs(buf, offset);
      if psvs.None? {
        return false;
      }
      psvts := psvts + [Psvt(name, psvs.value)];
    }

    method ParseKey(buf: bytes, start: nat) returns (ok: bool, end: nat)
      requires start <= |buf|
      modifies this
      ensures var k := ReadKey(Skip(buf, start));
              if k.None? then !ok && psvts == old(psvts)
              else ok && start < end <= |buf| && k.value.1 == Skip(buf, end) &&
                   psvts == if k.value.0.Some? then old(psvts) + [k.value.0.value] else old(psvts)
    {
      var key, val;
      ok, key, end := GetBlock(buf, start);
      if !ok || |key| == 0 {
        return false, end;
      }
      ok, val, end := GetBlock(buf, end);
      if !ok {
        return;
      }
      var path := PathOf(key);
      if path.kind == Some(PSVT) {
        ok := ParsePsvt(if path.name.Some? then path.name.value else DEFAULT, val);
      }
    }

    /** The version 1 layout; other major versions stop with OtherVersion. */
    method ParseGddv(buf: bytes) returns (code: Code)
      requires psvts == []
      modifies this
      ensures match ReadVault(buf)
              case Threw => code == CodeThrew
              case ReturnedError => code == CodeError
              case OtherVersion => code == CodeOtherVersion
              case Parsed(ts, _) => code == CodeSuccess && psvts == ts
    {
      if |buf| < HEADER_STRUCT_SIZE {
        return CodeError;
      }
      if FromLittle(buf[..2]) != SIGNATURE {
        return CodeThrew;
      }
      var major := FromLittle(buf[4..8]) / 0x100_0000 % 256;
      if major != 1 && major != 2 {
        return CodeError;
      }
      var headerSize := FromLittle(buf[2..4]);
      if major == 2 {
        return CodeOtherVersion;
      }
      var ok := ParseKeys(buf, headerSize);
      code := if ok then CodeSuccess else CodeThrew;
    }

    method ParseKeys(buf: bytes, headerSize: nat) returns (ok: bool)
      requires psvts == []
      modifies this
      ensures match ReadKeys(Skip(buf, headerSize), headerSize)
              case Threw => !ok
              case Parsed(ts, _) => ok && psvts == ts
              case _ => false
    {
      var offset := headerSize;
      ghost var whole := ReadKeys(Skip(buf, headerSize), headerSize);
      NeverOther(Skip(buf, headerSize), headerSize);
      while offset + headerSize < |buf|
        invariant whole == Before(psvts, ReadKeys(Skip(buf, offset), headerSize))
        decreases |buf| - offset
      {
        ghost var ts := psvts;
        var end;
        UnfoldKeys(Skip(buf, offset), headerSize);
        ok, end := ParseKey(buf, offset);
        if !ok {
          return;
        }
        BeforeNext(ts, psvts, ReadKeys(Skip(buf, end), headerSize));
        offset := end;
      }
      ok := true;
    }
  }

  datatype Code = CodeSuccess | CodeError | CodeThrew | CodeOtherVersion

  function Before(ts: seq<Psvt>, r: ParseResult): ParseResult { if r.Parsed? then r.(tables := ts + r.tables) else r }

  lemma BeforeNext(ts: seq<Psvt>, ts': seq<Psvt>, r: ParseResult)
    requires ts <= ts' && |ts'| <= |ts| + 1
    ensures Before(ts', r) == Before(ts, WithTable(if |ts'| == |ts| then None else Some(ts'[|ts|]), r))
  {
    if |ts'| > |ts| {
      assert ts' == ts + [ts'[|ts|]];
      if r.Parsed? { assert ts + ([ts'[|ts|]] + r.tables) == ts' + r.tables; }
    } else {
      assert ts == ts';
    }
  }

  lemma UnfoldKeys(rest: bytes, hs: nat)
    requires |rest| > hs
    ensures var k := ReadKey(rest);
            ReadKeys(rest, hs) == if k.None? then Threw else WithTable(k.value.0, ReadKeys(k.value.1, hs))
  {
  }

  lemma {:induction false} NeverOther(rest: bytes, hs: nat)
    ensures ReadKeys(rest, hs).Threw? || ReadKeys(rest, hs).Parsed?
    decreases |rest|
  {
    if |rest| > hs {
      UnfoldKeys(rest, hs);
      if ReadKey(rest).Some? { NeverOther(ReadKey(rest).value.1, hs); }
    }
  }
}
