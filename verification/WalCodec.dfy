/** The record format of the write-ahead log: how records are written, read back, and read back after a crash. */
module WalCodec {
  import opened Wrappers
  import opened Bytes
  import opened Integers

  type Blob = seq<byte>

  /** The value length that stands for a delete. */
  const DELETE_MARKER: int := TWO_32 - 1

  const HEADER: nat := 16

  /** A record; a value of None is a delete. */
  datatype Record = Record(rev: i64, key: Blob, value: Option<Blob>)

  // ---------------------------------------------------------------- integers

  function LittleEndian(x: nat, n: nat): (bs: Blob)
    ensures |bs| == n
  {
    if n == 0 then [] else [x % 256] + LittleEndian(x / 256, n - 1)
  }

  function FromLittleEndian(bs: Blob): nat {
    if bs == [] then 0 else bs[0] + 256 * FromLittleEndian(bs[1..])
  }

  function Power256(n: nat): nat {
    if n == 0 then 1 else 256 * Power256(n - 1)
  }

  lemma {:induction false} LittleEndianRoundTrip(x: nat, n: nat)
    requires x < Power256(n)
    ensures FromLittleEndian(LittleEndian(x, n)) == x
  {
    if n > 0 {
      LittleEndianRoundTrip(x / 256, n - 1);
      assert LittleEndian(x, n)[1..] == LittleEndian(x / 256, n - 1);
    }
  }

  lemma Powers()
    ensures Power256(4) == TWO_32 && Power256(8) == TWO_64
  {
    assert Power256(2) == 65536;
    assert Power256(4) == 256 * (256 * Power256(2));
    assert Power256(6) == 256 * (256 * Power256(4));
    assert Power256(8) == 256 * (256 * Power256(6));
  }

  /** The truncating cast of a length. */
  function AsU32(n: nat): nat { n % TWO_32 }

  // ---------------------------------------------------------------- writing

  function ValueLength(value: Option<Blob>): nat {
    match value case Some(v) => AsU32(|v|) case None => DELETE_MARKER
  }

  function Header(r: Record): (h: Blob)
    ensures |h| == HEADER
  {
    LittleEndian(AsUnsigned(r.rev), 8) + LittleEndian(AsU32(|r.key|), 4) + LittleEndian(ValueLength(r.value), 4)
  }

  /** The key is written when its truncated length is not zero. */
  function KeyBytes(r: Record): Blob { if AsU32(|r.key|) > 0 then r.key else [] }

  function ValueBytes(r: Record): Blob { match r.value case Some(v) => v case None => [] }

  function Encode(r: Record): (bs: Blob)
    ensures |bs| >= HEADER
  {
    Header(r) + KeyBytes(r) + ValueBytes(r)
  }

  function EncodeAll(rs: seq<Record>): Blob {
    if rs == [] then [] else Encode(rs[0]) + EncodeAll(rs[1..])
  }

  // ---------------------------------------------------------------- reading

  /** Reading one record: the end of the data, an error, or a record and what follows it. */
  datatype ReadResult = End | Fail | Got(record: Record, rest: Blob)

  /** What comes after the header. */
  function ReadBody(rev: i64, keyLen: nat, valueLenRaw: nat, body: Blob): (r: ReadResult)
    ensures r.Got? ==> |r.rest| <= |body| && r.record.rev == rev && |r.record.key| == keyLen
  {
    if |body| < keyLen then Fail
    else if valueLenRaw == DELETE_MARKER then Got(Record(rev, body[..keyLen], None), body[keyLen..])
    else if |body| - keyLen < valueLenRaw then Fail
    else Got(Record(rev, body[..keyLen], Some(body[keyLen..keyLen + valueLenRaw])), body[keyLen + valueLenRaw..])
  }

  function Rev(header: Blob): i64
    requires |header| == HEADER
  {
    FromLittleEndianBound(header[..8]);
    Powers();
    AsSigned(FromLittleEndian(header[..8]))
  }

  function KeyLen(header: Blob): nat
    requires |header| == HEADER
  {
    FromLittleEndian(header[8..12])
  }

  function ValueLen(header: Blob): nat
    requires |header| == HEADER
  {
    FromLittleEndian(header[12..16])
  }

  function Read(bs: Blob): (r: ReadResult)
    ensures r.Got? ==> |r.rest| < |bs|
  {
    if |bs| < HEADER then End
    else
      var h := bs[..HEADER];
      ReadBody(Rev(h), KeyLen(h), ValueLen(h), bs[HEADER..])
  }

  lemma {:induction false} FromLittleEndianBound(bs: Blob)
    ensures FromLittleEndian(bs) < Power256(|bs|)
  {
    if bs != [] {
      FromLittleEndianBound(bs[1..]);
    }
  }

  /** Reads records until the end or an error; says which of the two it was. */
  function ReadAll(bs: Blob): (seq<Record>, bool) {
    match Read(bs)
    case End => ([], true)
    case Fail => ([], false)
    case Got(r, rest) => var (rs, clean) := ReadAll(rest); ([r] + rs, clean)
  }

  // ---------------------------------------------------------------- round trips

  /** Both lengths are what the format can hold. */
  predicate Fits(r: Record) {
    |r.key| < TWO_32 && (r.value.Some? ==> |r.value.value| < DELETE_MARKER)
  }

  lemma HeaderIsRead(r: Record)
    ensures var h := Header(r);
            Rev(h) == r.rev && KeyLen(h) == AsU32(|r.key|) && ValueLen(h) == ValueLength(r.value)
  {
    var h := Header(r);
    Powers();
    assert h[..8] == LittleEndian(AsUnsigned(r.rev), 8);
    assert h[8..12] == LittleEndian(AsU32(|r.key|), 4);
    assert h[12..16] == LittleEndian(ValueLength(r.value), 4);
    LittleEndianRoundTrip(AsUnsigned(r.rev), 8);
    LittleEndianRoundTrip(AsU32(|r.key|), 4);
    LittleEndianRoundTrip(ValueLength(r.value), 4);
  }

  /** Reading a written record is reading the body under its header. */
  lemma ReadWritten(r: Record, tail: Blob)
    ensures Read(Header(r) + tail) == ReadBody(r.rev, AsU32(|r.key|), ValueLength(r.value), tail)
  {
    var bs := Header(r) + tail;
    assert bs[..HEADER] == Header(r) && bs[HEADER..] == tail;
    HeaderIsRead(r);
  }

  lemma FittingIsRead(r: Record, rest: Blob)
    requires Fits(r)
    ensures ReadBody(r.rev, AsU32(|r.key|), ValueLength(r.value), KeyBytes(r) + ValueBytes(r) + rest) == Got(r, rest)
  {
    var n, body := |r.key|, KeyBytes(r) + ValueBytes(r) + rest;
    assert AsU32(n) == n && KeyBytes(r) == r.key;
    assert body[..n] == r.key && body[n..] == ValueBytes(r) + rest;
    if r.value.Some? {
      var v := r.value.value;
      assert body[n..n + |v|] == v && body[n + |v|..] == rest;
    }
  }

  lemma MisfitIsNotRead(r: Record, body: Blob, rest: Blob)
    requires !Fits(r)
    ensures ReadBody(r.rev, AsU32(|r.key|), ValueLength(r.value), body) != Got(r, rest)
  {
    assert |r.key| >= TWO_32 ==> AsU32(|r.key|) < |r.key|;
  }

  /** A record is read back, with deletes distinct from empty values, if and only if its lengths fit. */
  lemma RoundTripIff(r: Record, rest: Blob)
    ensures Read(Encode(r) + rest) == Got(r, rest) <==> Fits(r)
  {
    var body := KeyBytes(r) + ValueBytes(r) + rest;
    assert Encode(r) + rest == Header(r) + body;
    ReadWritten(r, body);
    if Fits(r) {
      FittingIsRead(r, rest);
    } else {
      MisfitIsNotRead(r, body, rest);
    }
  }

  lemma ReadAllStep(r: Record, rest: Blob)
    requires Fits(r)
    ensures ReadAll(Encode(r) + rest) == ([r] + ReadAll(rest).0, ReadAll(rest).1)
  {
    RoundTripIff(r, rest);
  }

  /** The log as written is read back completely. */
  lemma {:induction false} LogRoundTrip(rs: seq<Record>)
    requires forall i :: 0 <= i < |rs| ==> Fits(rs[i])
    ensures ReadAll(EncodeAll(rs)) == (rs, true)
  {
    if rs != [] {
      ReadAllStep(rs[0], EncodeAll(rs[1..]));
      LogRoundTrip(rs[1..]);
      assert rs == [rs[0]] + rs[1..];
    }
  }

  // ---------------------------------------------------------------- the bytes of a record

  /** The number in four bytes, the least significant first. */
  function Word(bs: Blob, i: nat): nat
    requires i + 4 <= |bs|
  {
    var a: nat, b: nat, c: nat, d: nat := bs[i], bs[i + 1], bs[i + 2], bs[i + 3];
    a + 256 * b + 65536 * c + 16777216 * d
  }

  lemma FourBytes(bs: Blob)
    requires |bs| == 4
    ensures FromLittleEndian(bs) == Word(bs, 0)
  {
    assert bs[1..][1..] == bs[2..] && bs[2..][1..] == bs[3..] && bs[3..][1..] == [];
    assert FromLittleEndian([]) == 0;
    assert FromLittleEndian(bs[3..]) == bs[3];
    assert FromLittleEndian(bs[2..]) == bs[2] + 256 * FromLittleEndian(bs[3..]);
    assert FromLittleEndian(bs[1..]) == bs[1] + 256 * FromLittleEndian(bs[2..]);
  }

  lemma EightBytes(bs: Blob)
    requires |bs| == 8
    ensures FromLittleEndian(bs) == FromLittleEndian(bs[..4]) + TWO_32 * FromLittleEndian(bs[4..])
  {
    Shift(bs, 4);
    Powers();
  }

  lemma {:induction false} Shift(bs: Blob, n: nat)
    requires n <= |bs|
    ensures FromLittleEndian(bs) == FromLittleEndian(bs[..n]) + Power256(n) * FromLittleEndian(bs[n..])
  {
    if n == 0 {
      assert bs[0..] == bs;
    } else {
      Shift(bs[1..], n - 1);
      assert bs[..n][1..] == bs[1..][..n - 1] && bs[1..][n - 1..] == bs[n..];
      ShiftStep(bs[0], FromLittleEndian(bs[1..][..n - 1]), Power256(n - 1), FromLittleEndian(bs[n..]));
    }
  }

  lemma ShiftStep(b: nat, low: nat, p: nat, high: nat)
    ensures b + 256 * (low + p * high) == (b + 256 * low) + (256 * p) * high
  {
  }

  /**
    What a record looks like, byte by byte: the revision in eight bytes, the lengths of key and value in four each, the
    least significant byte first, four times 255 for the value length of a delete, then the key and the value.
   */
  lemma Layout(r: Record)
    requires Fits(r)
    ensures var bs := Encode(r);
            && |bs| == 16 + |r.key| + (if r.value.Some? then |r.value.value| else 0)
            && Word(bs, 0) + 4294967296 * Word(bs, 4) == r.rev + (if r.rev < 0 then 18446744073709551616 else 0)
            && Word(bs, 8) == |r.key|
            && Word(bs, 12) == (if r.value.Some? then |r.value.value| else 4294967295)
            && bs[16..16 + |r.key|] == r.key
            && bs[16 + |r.key|..] == if r.value.Some? then r.value.value else []
  {
    var bs, h := Encode(r), Header(r);
    LayoutBody(r);
    SameWord(bs, h, 0);
    SameWord(bs, h, 4);
    SameWord(bs, h, 8);
    SameWord(bs, h, 12);
    LayoutRev(r);
    LayoutLengths(r);
  }

  lemma SameWord(bs: Blob, h: Blob, i: nat)
    requires h <= bs && i + 4 <= |h|
    ensures Word(bs, i) == Word(h, i)
  {
  }

  lemma LayoutBody(r: Record)
    requires Fits(r)
    ensures var bs := Encode(r);
            && Header(r) <= bs && |bs| == 16 + |r.key| + (if r.value.Some? then |r.value.value| else 0)
            && bs[16..16 + |r.key|] == r.key
            && bs[16 + |r.key|..] == if r.value.Some? then r.value.value else []
  {
    assert KeyBytes(r) == r.key;
  }

  lemma LayoutLengths(r: Record)
    requires Fits(r)
    ensures var h := Header(r);
            && Word(h, 8) == |r.key|
            && Word(h, 12) == if r.value.Some? then |r.value.value| else 4294967295
  {
    var h := Header(r);
    assert AsU32(|r.key|) == |r.key|;
    assert ValueLength(r.value) == if r.value.Some? then |r.value.value| else 4294967295;
    HeaderIsRead(r);
    FourBytes(h[8..12]);
    FourBytes(h[12..16]);
  }

  lemma LayoutRev(r: Record)
    ensures var h := Header(r);
            Word(h, 0) + 4294967296 * Word(h, 4) == r.rev + if r.rev < 0 then 18446744073709551616 else 0
  {
    var h := Header(r);
    assert h[..8] == LittleEndian(AsUnsigned(r.rev), 8);
    Powers();
    LittleEndianRoundTrip(AsUnsigned(r.rev), 8);
    EightBytes(h[..8]);
    FourBytes(h[..8][..4]);
    FourBytes(h[..8][4..]);
  }

  // ---------------------------------------------------------------- truncation

  /** How many records lie completely within the first `n` bytes. */
  function Whole(rs: seq<Record>, n: nat): nat {
    if rs == [] || n < |Encode(rs[0])| then 0 else 1 + Whole(rs[1..], n - |Encode(rs[0])|)
  }

  /** How many bytes of the record after those are left. */
  function Leftover(rs: seq<Record>, n: nat): nat {
    if rs == [] || n < |Encode(rs[0])| then n else Leftover(rs[1..], n - |Encode(rs[0])|)
  }

  lemma TruncatedBody(r: Record, body: Blob)
    requires Fits(r) && |body| < |r.key| + |ValueBytes(r)|
    ensures ReadBody(r.rev, AsU32(|r.key|), ValueLength(r.value), body) == Fail
  {
    assert AsU32(|r.key|) == |r.key|;
  }

  lemma TruncatedRecord(r: Record, n: nat)
    requires Fits(r) && n < |Encode(r)|
    ensures ReadAll(Encode(r)[..n]) == ([], n < HEADER)
  {
    if n >= HEADER {
      var whole := KeyBytes(r) + ValueBytes(r);
      var body := whole[..n - HEADER];
      assert Encode(r) == Header(r) + whole;
      assert Encode(r)[..n] == Header(r) + body;
      ReadWritten(r, body);
      TruncatedBody(r, body);
    }
  }

  /** Cutting off within the first record, or after it. */
  lemma TruncatedWithin(r: Record, rest: Blob, n: nat)
    requires Fits(r) && n <= |Encode(r) + rest|
    ensures n < |Encode(r)| ==> ReadAll((Encode(r) + rest)[..n]) == ([], n < HEADER)
    ensures n >= |Encode(r)| ==>
              var tail := ReadAll(rest[..n - |Encode(r)|]);
              ReadAll((Encode(r) + rest)[..n]) == ([r] + tail.0, tail.1)
  {
    var first := Encode(r);
    if n < |first| {
      assert (first + rest)[..n] == first[..n];
      TruncatedRecord(r, n);
    } else {
      var m := n - |first|;
      assert (first + rest)[..n] == first + rest[..m];
      ReadAllStep(r, rest[..m]);
    }
  }

  lemma TakeCons<T>(xs: seq<T>, n: nat)
    requires n < |xs|
    ensures xs[..1 + n] == [xs[0]] + xs[1..][..n]
  {
  }

  /**
    After any truncation, reading gives exactly the records that are completely there, in order and none invented,
    then a clean end if less than a header is left over and an error otherwise.
   */
  lemma {:induction false} TruncatedLog(rs: seq<Record>, n: nat)
    requires (forall i :: 0 <= i < |rs| ==> Fits(rs[i])) && n <= |EncodeAll(rs)|
    ensures Whole(rs, n) <= |rs|
    ensures ReadAll(EncodeAll(rs)[..n]) == (rs[..Whole(rs, n)], Leftover(rs, n) < HEADER)
  {
    if rs != [] {
      var r, tail := rs[0], rs[1..];
      var first, rest := Encode(r), EncodeAll(tail);
      assert EncodeAll(rs) == first + rest;
      TruncatedWithin(r, rest, n);
      if n >= |first| {
        var m := n - |first|;
        TruncatedLog(tail, m);
        TakeCons(rs, Whole(tail, m));
      }
    }
  }

  // ---------------------------------------------------------------- the reader

  /** A buffered reader over the bytes of one file. */
  class Reader {
    const data: Blob
    var pos: nat

    ghost predicate Valid()
      reads this
    {
      pos <= |data|
    }

    ghost function Remaining(): Blob
      requires Valid()
      reads this
    {
      data[pos..]
    }

    constructor (data: Blob)
      ensures Valid() && Remaining() == data
    {
      this.data := data;
      pos := 0;
    }

    /** Fills a buffer of `n` bytes, or fails at the end of the file. */
    method ReadExact(n: nat) returns (r: Option<Blob>)
      requires Valid()
      modifies this
      ensures Valid()
      ensures if n <= |old(Remaining())| then r == Some(old(Remaining())[..n]) && Remaining() == old(Remaining())[n..]
              else r == None && Remaining() == []
    {
      if |data| - pos < n {
        pos := |data|;
        return None;
      }
      assert data[pos..][..n] == data[pos..pos + n];
      r := Some(data[pos..pos + n]);
      pos := pos + n;
    }

    /** Reads the next record; a file that ends inside a header ends there. */
    method ReadFrom() returns (r: Result<Option<Record>, ()>)
      requires Valid()
      modifies this
      ensures Valid()
      ensures match Read(old(Remaining()))
              case End => r == Ok(None) && Remaining() == []
              case Fail => r == Err(())
              case Got(record, rest) => r == Ok(Some(record)) && Remaining() == rest
    {
      ghost var before := Remaining();
      var header := ReadExact(HEADER);
      if header.None? {
        return Ok(None);
      }
      var h := header.value;
      var rev, keyLen, valueLenRaw := Rev(h), KeyLen(h), ValueLen(h);
      ghost var body := Remaining();
      assert body == before[HEADER..] && h == before[..HEADER];
      var key := ReadExact(keyLen);
      if key.None? {
        return Err(());
      }
      if valueLenRaw == DELETE_MARKER {
        return Ok(Some(Record(rev, key.value, None)));
      }
      assert body[keyLen..][..if |body| - keyLen < valueLenRaw then 0 else valueLenRaw] ==
             body[keyLen..keyLen + if |body| - keyLen < valueLenRaw then 0 else valueLenRaw];
      var v := ReadExact(valueLenRaw);
      if v.None? {
        return Err(());
      }
      assert body[keyLen..][valueLenRaw..] == body[keyLen + valueLenRaw..];
      return Ok(Some(Record(rev, key.value, Some(v.value))));
    }
  }
}
