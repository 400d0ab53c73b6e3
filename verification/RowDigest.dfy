/**
 The byte string that is hashed for one Gold row, and what it determines.

 SHA-256 (FIPS 180-4, section 6.2) is the free constructor `Sha256`: distinct messages have
 distinct digests.  Doubles are bit triples of the binary64 format (IEEE 754-2019,
 section 3.4) and are packed bit for bit; timestamps are instants counted from 1970-01-01.
 */
module RowDigest {
  import opened Common

  type Byte = b: int | 0 <= b < 256

  /* ---------- fixed-width integers ---------- */

  const BIT_63: int := 0x8000_0000_0000_0000
  const BIT_64: int := 0x1_0000_0000_0000_0000
  const BIT_52: int := 0x10_0000_0000_0000

  function Radix(width: nat): nat {
    if width == 0 then 1 else 256 * Radix(width - 1)
  }

  function BigEndian(width: nat, n: nat): (bytes: seq<Byte>)
    ensures |bytes| == width
  {
    if width == 0 then [] else BigEndian(width - 1, n / 256) + [n % 256]
  }

  function FromBigEndian(bytes: seq<Byte>): nat {
    if bytes == [] then 0 else 256 * FromBigEndian(bytes[..|bytes| - 1]) + bytes[|bytes| - 1]
  }

  lemma {:induction false} BigEndianRoundTrip(width: nat, n: nat)
    requires n < Radix(width)
    ensures FromBigEndian(BigEndian(width, n)) == n
  {
    if width > 0 {
      BigEndianRoundTrip(width - 1, n / 256);
      assert BigEndian(width, n)[..width - 1] == BigEndian(width - 1, n / 256);
    }
  }

  lemma EightBytes()
    ensures Radix(8) == BIT_64
  {
    assert Radix(1) == 256 && Radix(2) == 0x1_0000 && Radix(3) == 0x100_0000;
    assert Radix(4) == 0x1_0000_0000 && Radix(5) == 0x100_0000_0000 && Radix(6) == 0x1_0000_0000_0000;
    assert Radix(7) == 0x100_0000_0000_0000;
  }

  /* ---------- doubles ---------- */

  /** A binary64 value by its sign bit, biased exponent and fraction bits. */
  datatype Double = Double(negative: bool, exponent: nat, fraction: nat) {
    predicate WellFormed() { exponent < 2048 && fraction < BIT_52 }

    predicate Finite() { WellFormed() && exponent != 2047 }

    predicate Zero() { exponent == 0 && fraction == 0 }

    /** Finite and not the negative zero. */
    predicate Canonical() { Finite() && (Zero() ==> !negative) }
  }

  const ZERO := Double(false, 0, 0)

  type Number = d: Double | d.Canonical() witness Double(false, 0, 0)

  /** NaN and infinities are rejected; both zeros become positive zero. */
  function CanonicalFloat(d: Double): Option<Number> {
    if !d.Finite() then None else if d.Zero() then Some(ZERO) else Some(d)
  }

  /** Exactly the doubles with the greatest exponent are rejected, and only the zero of sign minus changes. */
  lemma CanonicalFloatExact(d: Double)
    requires d.exponent < 2048 && d.fraction < 0x10_0000_0000_0000
    ensures CanonicalFloat(d) == if d.exponent == 2047 then None
                                 else if d == Double(true, 0, 0) then Some(Double(false, 0, 0))
                                 else Some(d)
  {
  }

  function Bits(d: Number): (n: nat)
    ensures n < BIT_64
  {
    (if d.negative then BIT_63 else 0) + d.exponent * BIT_52 + d.fraction
  }

  function FromBits(n: nat): Double {
    Double(n >= BIT_63, (n % BIT_63) / BIT_52, n % BIT_52)
  }

  function PackDouble(d: Number): seq<Byte> {
    BigEndian(8, Bits(d))
  }

  function UnpackDouble(bytes: seq<Byte>): Double {
    FromBits(FromBigEndian(bytes))
  }

  lemma SplitFraction(q: nat, r: nat)
    requires r < BIT_52
    ensures (q * BIT_52 + r) / BIT_52 == q && (q * BIT_52 + r) % BIT_52 == r
  {
  }

  lemma SplitSign(negative: bool, low: nat)
    requires low < BIT_63
    ensures var n := (if negative then BIT_63 else 0) + low;
            n % BIT_63 == low && (n >= BIT_63 <==> negative)
  {
  }

  lemma BitsRoundTrip(d: Number)
    ensures FromBits(Bits(d)) == d
  {
    SplitSign(d.negative, d.exponent * BIT_52 + d.fraction);
    SplitFraction(d.exponent, d.fraction);
    SplitFraction((if d.negative then 2048 else 0) + d.exponent, d.fraction);
  }

  lemma DoubleRoundTrip(d: Number)
    ensures UnpackDouble(PackDouble(d)) == d
  {
    hide Bits, FromBits;
    EightBytes();
    BigEndianRoundTrip(8, Bits(d));
    BitsRoundTrip(d);
  }

  /* ---------- timestamps ---------- */

  const MICROS_PER_SECOND: int := 1_000_000
  const MICROS_PER_DAY: int := 86_400_000_000

  /** A UTC instant as Python's timedelta from the epoch: days, seconds of the day, microseconds. */
  datatype Instant = Instant(days: int, seconds: nat, micros: nat) {
    /** Years 1 to 9999. */
    predicate WellFormed() { -719_162 <= days <= 2_932_896 && seconds < 86_400 && micros < MICROS_PER_SECOND }
  }

  type Timestamp = t: Instant | t.WellFormed() witness Instant(0, 0, 0)

  function EpochMicroseconds(t: Timestamp): (n: int)
    ensures -BIT_63 <= n < BIT_63
  {
    t.days * MICROS_PER_DAY + t.seconds * MICROS_PER_SECOND + t.micros
  }

  function FromEpochMicroseconds(n: int): Instant {
    var ofDay := n % MICROS_PER_DAY;
    Instant(n / MICROS_PER_DAY, ofDay / MICROS_PER_SECOND, ofDay % MICROS_PER_SECOND)
  }

  lemma MicrosecondsRoundTrip(t: Timestamp)
    ensures FromEpochMicroseconds(EpochMicroseconds(t)) == t
  {
    var ofDay := t.seconds * MICROS_PER_SECOND + t.micros;
    assert 0 <= ofDay < MICROS_PER_DAY;
    assert EpochMicroseconds(t) == t.days * MICROS_PER_DAY + ofDay;
    assert EpochMicroseconds(t) / MICROS_PER_DAY == t.days && EpochMicroseconds(t) % MICROS_PER_DAY == ofDay;
  }

  /** Two's complement in eight bytes. */
  function PackSigned(n: int): seq<Byte>
    requires -BIT_63 <= n < BIT_63
  {
    BigEndian(8, if n < 0 then n + BIT_64 else n)
  }

  function UnpackSigned(bytes: seq<Byte>): int {
    var n := FromBigEndian(bytes);
    if n >= BIT_63 then n - BIT_64 else n
  }

  lemma SignedRoundTrip(n: int)
    requires -BIT_63 <= n < BIT_63
    ensures UnpackSigned(PackSigned(n)) == n
  {
    EightBytes();
    BigEndianRoundTrip(8, if n < 0 then n + BIT_64 else n);
  }

  /* ---------- framing ---------- */

  /** A UTF-8 column name without NUL. */
  type Name = s: seq<Byte> | 0 !in s

  const TAG_TIME: Byte := 84
  const TAG_NULL: Byte := 78
  const TAG_FLOAT: Byte := 70

  /** macro-loader:gold-row:v1 NUL */
  const PREFIX: seq<Byte> := [109, 97, 99, 114, 111, 45, 108, 111, 97, 100, 101, 114, 58, 103, 111, 108, 100, 45,
                              114, 111, 119, 58, 118, 49, 0]

  /** timestamp_m1 */
  const TIME_COLUMN: Name := [116, 105, 109, 101, 115, 116, 97, 109, 112, 95, 109, 49]

  datatype GoldRow = GoldRow(timestamp: Timestamp, values: seq<Option<Number>>)

  function FrameCell(name: Name, value: Option<Number>): seq<Byte> {
    name + [0] + (if value.None? then [TAG_NULL] else [TAG_FLOAT] + PackDouble(value.value))
  }

  function FrameCells(names: seq<Name>, values: seq<Option<Number>>): seq<Byte>
    requires |names| == |values|
  {
    if names == [] then [] else FrameCell(names[0], values[0]) + FrameCells(names[1..], values[1..])
  }

  function FrameTime(t: Timestamp): seq<Byte> {
    PREFIX + TIME_COLUMN + [0, TAG_TIME] + PackSigned(EpochMicroseconds(t))
  }

  /** The complete hashed message for a row under a column list. */
  function Message(names: seq<Name>, row: GoldRow): seq<Byte>
    requires |names| == |row.values|
  {
    FrameTime(row.timestamp) + FrameCells(names, row.values)
  }

  datatype Digest = Sha256(message: seq<Byte>)

  function RowSha256(names: seq<Name>, row: GoldRow): Digest
    requires |names| == |row.values|
  {
    Sha256(Message(names, row))
  }

  /** The hashing loop: the digest is fed piece by piece. */
  method GoldRowSha256(names: seq<Name>, row: GoldRow) returns (digest: Digest)
    requires |names| == |row.values|
    ensures digest == RowSha256(names, row)
  {
    var fed := PREFIX;
    fed := fed + TIME_COLUMN;
    fed := fed + [0, TAG_TIME];
    fed := fed + PackSigned(EpochMicroseconds(row.timestamp));
    for i := 0 to |names|
      invariant fed + FrameCells(names[i..], row.values[i..]) == Message(names, row)
    {
      var rest := FrameCells(names[i..][1..], row.values[i..][1..]);
      assert names[i..][1..] == names[i + 1..] && row.values[i..][1..] == row.values[i + 1..];
      var before := fed;
      fed := fed + names[i] + [0];
      if row.values[i].None? {
        fed := fed + [TAG_NULL];
      } else {
        fed := fed + [TAG_FLOAT] + PackDouble(row.values[i].value);
      }
      assert fed == before + FrameCell(names[i], row.values[i]);
      assert before + (FrameCell(names[i], row.values[i]) + rest) == fed + rest;
    }
    assert fed + [] == fed;
    digest := Sha256(fed);
  }

  /** The bytes of a text without characters outside ASCII. */
  function Ascii(text: string): (bytes: seq<Byte>)
    requires forall i :: 0 <= i < |text| ==> text[i] as int < 128
    ensures |bytes| == |text| && forall i :: 0 <= i < |text| ==> bytes[i] == text[i] as int
  {
    seq(|text|, i requires 0 <= i < |text| => text[i] as int)
  }

  /** The constant parts of the message as text. */
  lemma FramingText()
    ensures PREFIX == Ascii("macro-loader:gold-row:v1") + [0]
    ensures TIME_COLUMN == Ascii("timestamp_m1")
    ensures [TAG_TIME] == Ascii("T") && [TAG_NULL] == Ascii("N") && [TAG_FLOAT] == Ascii("F")
  {
  }

  /**
   The message byte by byte: the texts, the signed microseconds since 1970 in eight bytes, then
   each column name with its tag and, for a number, its eight bytes.
   */
  lemma MessageLayout(names: seq<Name>, row: GoldRow, i: nat)
    requires |names| == |row.values| && i < |names|
    ensures var time := Ascii("macro-loader:gold-row:v1") + [0] + Ascii("timestamp_m1") + [0] + Ascii("T")
                        + BigEndian(8, var n := (row.timestamp.days * 86_400 + row.timestamp.seconds) * 1_000_000 + row.timestamp.micros;
                                       if n < 0 then n + 0x1_0000_0000_0000_0000 else n);
            time <= Message(names, row)
    ensures var v := row.values[i];
            FrameCells(names, row.values)
            == FrameCells(names[..i], row.values[..i])
               + names[i] + [0] + (if v.Some? then Ascii("F") + BigEndian(8, Bits(v.value)) else Ascii("N"))
               + FrameCells(names[i + 1..], row.values[i + 1..])
    ensures row.values[i].Some? ==>
              var d := row.values[i].value;
              Bits(d) == (if d.negative then 0x8000_0000_0000_0000 else 0) + d.exponent * 0x10_0000_0000_0000 + d.fraction
  {
    hide FrameCells;
    FramingText();
    TimeBytes(names, row);
    CellsSplit(names, row.values, i);
  }

  lemma TimeBytes(names: seq<Name>, row: GoldRow)
    requires |names| == |row.values|
    ensures Message(names, row)
            == PREFIX + TIME_COLUMN + [0] + [TAG_TIME]
               + BigEndian(8, var n := (row.timestamp.days * 86_400 + row.timestamp.seconds) * 1_000_000 + row.timestamp.micros;
                              if n < 0 then n + 0x1_0000_0000_0000_0000 else n)
               + FrameCells(names, row.values)
  {
    hide FrameCells, BigEndian;
    var n := EpochMicroseconds(row.timestamp);
    assert [0, TAG_TIME] == [0] + [TAG_TIME];
  }

  lemma {:induction false} CellsSplit(names: seq<Name>, values: seq<Option<Number>>, i: nat)
    requires |names| == |values| && i < |names|
    ensures FrameCells(names, values)
            == FrameCells(names[..i], values[..i]) + FrameCell(names[i], values[i]) + FrameCells(names[i + 1..], values[i + 1..])
  {
    hide FrameCell;
    if i > 0 {
      CellsSplit(names[1..], values[1..], i - 1);
      assert names[1..][..i - 1] == names[..i][1..] && values[1..][..i - 1] == values[..i][1..];
      assert names[1..][i..] == names[i + 1..] && values[1..][i..] == values[i + 1..];
    }
  }

  /* ---------- reading the message back ---------- */

  /** Length of the prefix before the first NUL. */
  function NameLength(bytes: seq<Byte>): (n: nat)
    ensures n <= |bytes|
  {
    if bytes == [] || bytes[0] == 0 then 0 else 1 + NameLength(bytes[1..])
  }

  lemma {:induction false} NameEnds(name: Name, rest: seq<Byte>)
    ensures NameLength(name + [0] + rest) == |name|
  {
    if name != [] {
      assert 0 !in name[1..];
      NameEnds(name[1..], rest);
      assert (name + [0] + rest)[1..] == name[1..] + [0] + rest;
    }
  }

  datatype Cells = Cells(names: seq<seq<Byte>>, values: seq<Option<Double>>)

  /** Left-to-right reader of the cell section; None on bytes no row produces. */
  function ReadCells(bytes: seq<Byte>): Option<Cells>
    decreases |bytes|
  {
    if bytes == [] then Some(Cells([], []))
    else
      var n := NameLength(bytes);
      if n + 1 >= |bytes| then None
      else
        var tag := bytes[n + 1];
        if tag == TAG_NULL then
          var rest := ReadCells(bytes[n + 2..]);
          if rest.None? then None
          else Some(Cells([bytes[..n]] + rest.value.names, [None] + rest.value.values))
        else if tag != TAG_FLOAT || n + 10 > |bytes| then None
        else
          var rest := ReadCells(bytes[n + 10..]);
          if rest.None? then None
          else Some(Cells([bytes[..n]] + rest.value.names,
                          [Some(UnpackDouble(bytes[n + 2..n + 10]))] + rest.value.values))
  }

  /** One cell is read off the front and leaves exactly what follows it. */
  lemma ReadCell(name: Name, value: Option<Number>, tail: seq<Byte>)
    ensures var bytes := FrameCell(name, value) + tail;
            && NameLength(bytes) == |name| && |name| + 1 < |bytes| && bytes[..|name|] == name
            && (value.None? ==> bytes[|name| + 1] == TAG_NULL && bytes[|name| + 2..] == tail)
            && (value.Some? ==>
                  && bytes[|name| + 1] == TAG_FLOAT && |name| + 10 <= |bytes|
                  && bytes[|name| + 2..|name| + 10] == PackDouble(value.value)
                  && bytes[|name| + 10..] == tail)
  {
    hide PackDouble;
    var body := if value.None? then [TAG_NULL] else [TAG_FLOAT] + PackDouble(value.value);
    var bytes := FrameCell(name, value) + tail;
    assert bytes == name + [0] + (body + tail);
    NameEnds(name, body + tail);
    if value.Some? {
      assert |PackDouble(value.value)| == 8 by { PackedWidth(value.value); }
    }
  }

  lemma PackedWidth(d: Number)
    ensures |PackDouble(d)| == 8
  {
  }

  /** Reading the cells of a row gives back exactly its column names and values. */
  lemma {:induction false} CellsRoundTrip(names: seq<Name>, values: seq<Option<Number>>)
    requires |names| == |values|
    ensures ReadCells(FrameCells(names, values)) == Some(Cells(names, values))
  {
    hide PackDouble, UnpackDouble, FrameCell, NameLength;
    if names != [] {
      CellsRoundTrip(names[1..], values[1..]);
      ReadCell(names[0], values[0], FrameCells(names[1..], values[1..]));
      if values[0].Some? {
        DoubleRoundTrip(values[0].value);
      }
      assert [names[0]] + names[1..] == names && [values[0]] + values[1..] == values;
    }
  }

  /** The timestamp section has constant length, so its eight bytes can be cut out. */
  function ReadTime(bytes: seq<Byte>): int
    requires |bytes| >= 47
  {
    UnpackSigned(bytes[39..47])
  }

  lemma TimeRoundTrip(t: Timestamp, rest: seq<Byte>)
    ensures |FrameTime(t)| == 47
    ensures ReadTime(FrameTime(t) + rest) == EpochMicroseconds(t)
    ensures (FrameTime(t) + rest)[47..] == rest
  {
    SignedRoundTrip(EpochMicroseconds(t));
    assert (FrameTime(t) + rest)[39..47] == PackSigned(EpochMicroseconds(t));
  }

  /**
   The framing is injective across schemas: equal digests mean the same column list and the
   same row.
   */
  lemma DigestDeterminesRow(namesA: seq<Name>, a: GoldRow, namesB: seq<Name>, b: GoldRow)
    requires |namesA| == |a.values| && |namesB| == |b.values|
    ensures RowSha256(namesA, a) == RowSha256(namesB, b) <==> namesA == namesB && a == b
  {
    if RowSha256(namesA, a) == RowSha256(namesB, b) {
      TimeRoundTrip(a.timestamp, FrameCells(namesA, a.values));
      TimeRoundTrip(b.timestamp, FrameCells(namesB, b.values));
      MicrosecondsRoundTrip(a.timestamp);
      MicrosecondsRoundTrip(b.timestamp);
      CellsRoundTrip(namesA, a.values);
      CellsRoundTrip(namesB, b.values);
      assert FrameCells(namesA, a.values) == FrameCells(namesB, b.values);
    }
  }
}
