/** The COMPACT encoding of IEC 61499-1 (Annex E): one tag byte per value, numbers with the
    most significant byte first. */
module Asn1Codec {
  import opened Fmi

  const CLASS_APPLICATION: byte := 0x40

  const BOOL0_TAG: byte := CLASS_APPLICATION + 0
  const BOOL1_TAG: byte := CLASS_APPLICATION + 1
  const DINT_TAG: byte := CLASS_APPLICATION + 4
  const REAL_TAG: byte := CLASS_APPLICATION + 10
  const LREAL_TAG: byte := CLASS_APPLICATION + 11
  const STRING_TAG: byte := CLASS_APPLICATION + 16

  /** A value as it is transmitted. */
  datatype Wire =
    | LReal(double: Word64)
    | Real(float: Word32)
    | DInt(number: Int32)
    | Bool(flag: bool)
    | Text(chars: seq<byte>)

  function Power256(n: nat): (p: nat)
    ensures p > 0
  {
    if n == 0 then 1 else 256 * Power256(n - 1)
  }

  /** The n low bytes of a number, most significant first. */
  function BigEndian(value: int, n: nat): (bytes: seq<byte>)
    ensures |bytes| == n
    decreases n
  {
    if n == 0 then [] else BigEndian(value / 256, n - 1) + [value % 256]
  }

  function FromBigEndian(bytes: seq<byte>): nat {
    if bytes == [] then 0 else FromBigEndian(bytes[..|bytes| - 1]) * 256 + bytes[|bytes| - 1]
  }

  lemma {:induction false} BigEndianBack(value: nat, n: nat)
    requires value < Power256(n)
    ensures FromBigEndian(BigEndian(value, n)) == value
    decreases n
  {
    if n > 0 {
      BigEndianBack(value / 256, n - 1);
      assert BigEndian(value, n)[..n - 1] == BigEndian(value / 256, n - 1);
    }
  }

  /** Shifting a negative number keeps its sign, so its bytes are those of the complement. */
  lemma {:induction false} BigEndianOfComplement(value: int, n: nat)
    ensures BigEndian(value + Power256(n), n) == BigEndian(value, n)
    decreases n
  {
    if n > 0 {
      BigEndianOfComplement(value / 256, n - 1);
      assert (value + Power256(n)) / 256 == value / 256 + Power256(n - 1);
    }
  }

  /** Numbers are transmitted in two's complement. */
  function SignedFromBigEndian(bytes: seq<byte>): Int32
    requires |bytes| == 4
  {
    FromBigEndianBound(bytes);
    var n := FromBigEndian(bytes);
    if n >= 0x8000_0000 then n - 0x1_0000_0000 else n
  }

  lemma {:induction false} FromBigEndianBound(bytes: seq<byte>)
    ensures FromBigEndian(bytes) < Power256(|bytes|)
  {
    if bytes != [] {
      FromBigEndianBound(bytes[..|bytes| - 1]);
    }
  }

  lemma Powers()
    ensures Power256(2) == 0x1_0000 && Power256(4) == 0x1_0000_0000 && Power256(8) == 0x1_0000_0000_0000_0000
  {
    assert Power256(1) == 256;
    assert Power256(2) == 256 * 256;
    assert Power256(3) == 256 * 256 * 256;
    assert Power256(5) == 256 * Power256(4);
    assert Power256(6) == 256 * Power256(5);
    assert Power256(7) == 256 * Power256(6);
  }

  lemma SignedBack(value: Int32)
    ensures SignedFromBigEndian(BigEndian(value, 4)) == value
  {
    Powers();
    if value >= 0 {
      BigEndianBack(value, 4);
    } else {
      BigEndianOfComplement(value, 4);
      BigEndianBack(value + 0x1_0000_0000, 4);
    }
  }

  // ----- reading one value

  /** `NeedMore` says how many bytes are missing at least. */
  datatype Reading = Read(wire: Wire, size: nat) | NeedMore(missing: nat) | BadTag

  function ReadText(buf: seq<byte>): Reading {
    if |buf| < 3 then NeedMore(3 - |buf|)
    else
      var length := FromBigEndian(buf[1..3]);
      if |buf| < 3 + length then NeedMore(3 + length - |buf|) else Read(Text(buf[3..3 + length]), 3 + length)
  }

  function FloatOf(bytes: seq<byte>): Word32
    requires |bytes| == 4
  {
    Powers();
    FromBigEndianBound(bytes);
    FromBigEndian(bytes)
  }

  function DoubleOf(bytes: seq<byte>): Word64
    requires |bytes| == 8
  {
    Powers();
    FromBigEndianBound(bytes);
    FromBigEndian(bytes)
  }

  function ReadValue(buf: seq<byte>): Reading
    requires buf != []
  {
    var tag := buf[0];
    if tag == LREAL_TAG then
      (if |buf| < 9 then NeedMore(9 - |buf|) else Read(LReal(DoubleOf(buf[1..9])), 9))
    else if tag == REAL_TAG then
      (if |buf| < 5 then NeedMore(5 - |buf|) else Read(Real(FloatOf(buf[1..5])), 5))
    else if tag == STRING_TAG then ReadText(buf)
    else if tag == BOOL0_TAG then Read(Bool(false), 1)
    else if tag == BOOL1_TAG then Read(Bool(true), 1)
    else if tag == DINT_TAG then
      (if |buf| < 5 then NeedMore(5 - |buf|) else Read(DInt(SignedFromBigEndian(buf[1..5])), 5))
    else BadTag
  }

  // ----- writing one value

  function Encode(wire: Wire): seq<byte>
    requires wire.Text? ==> |wire.chars| < 0x1_0000
  {
    match wire
    case LReal(d) => [LREAL_TAG] + BigEndian(d, 8)
    case Real(f) => [REAL_TAG] + BigEndian(f, 4)
    case DInt(n) => [DINT_TAG] + BigEndian(n, 4)
    case Bool(flag) => [if flag then BOOL1_TAG else BOOL0_TAG]
    case Text(chars) => [STRING_TAG] + BigEndian(|chars|, 2) + chars
  }

  lemma FourBytes(n: int)
    ensures BigEndian(n, 4) == [n / 0x100_0000 % 256, n / 0x1_0000 % 256, n / 0x100 % 256, n % 256]
  {
    assert n / 256 / 256 == n / 0x1_0000 && n / 0x1_0000 / 256 == n / 0x100_0000;
    assert BigEndian(n / 0x100_0000, 1) == [] + [n / 0x100_0000 % 256];
    assert BigEndian(n / 0x1_0000, 2) == BigEndian(n / 0x100_0000, 1) + [n / 0x1_0000 % 256];
    assert BigEndian(n / 0x100, 3) == BigEndian(n / 0x1_0000, 2) + [n / 0x100 % 256];
  }

  lemma EightBytes(n: int)
    ensures BigEndian(n, 8) == BigEndian(n / 0x1_0000_0000, 4) + BigEndian(n, 4)
  {
    FourBytes(n);
    HighBytes(n);
    var high := BigEndian(n / 0x1_0000_0000, 4);
    assert BigEndian(n / 0x100_0000, 5) == high + [n / 0x100_0000 % 256];
    assert BigEndian(n / 0x1_0000, 6) == BigEndian(n / 0x100_0000, 5) + [n / 0x1_0000 % 256];
    assert BigEndian(n / 0x100, 7) == BigEndian(n / 0x1_0000, 6) + [n / 0x100 % 256];
    assert BigEndian(n, 8) == BigEndian(n / 0x100, 7) + [n % 256];
  }

  lemma HighBytes(n: int)
    ensures n / 0x100 / 256 == n / 0x1_0000 && n / 0x1_0000 / 256 == n / 0x100_0000
    ensures n / 0x100_0000 / 256 == n / 0x1_0000_0000
  {
  }

  lemma WordBytes(d: Word64)
    ensures var h := d / 0x1_0000_0000;
            BigEndian(d, 8) == [h / 0x100_0000 % 256, h / 0x1_0000 % 256, h / 0x100 % 256, h % 256,
                                d / 0x100_0000 % 256, d / 0x1_0000 % 256, d / 0x100 % 256, d % 256]
  {
    EightBytes(d);
    FourBytes(d);
    FourBytes(d / 0x1_0000_0000);
  }

  lemma TwoBytes(size: nat)
    ensures BigEndian(size, 2) == [size / 256 % 256, size % 256]
  {
    assert BigEndian(size / 256, 1) == BigEndian(size / 256 / 256, 0) + [size / 256 % 256];
  }

  /** The bytes on the wire: the tag, and behind it the most significant byte first. */
  lemma EncodedBytes(wire: Wire)
    requires wire.Text? ==> |wire.chars| < 0x1_0000
    ensures match wire
            case LReal(d) =>
              var h := d / 0x1_0000_0000;
              Encode(wire) == [0x4B] + [h / 0x100_0000 % 256, h / 0x1_0000 % 256, h / 0x100 % 256, h % 256,
                                        d / 0x100_0000 % 256, d / 0x1_0000 % 256, d / 0x100 % 256, d % 256]
            case Real(f) =>
              Encode(wire) == [0x4A] + [f / 0x100_0000 % 256, f / 0x1_0000 % 256, f / 0x100 % 256, f % 256]
            case DInt(n) =>
              Encode(wire) == [0x44] + [n / 0x100_0000 % 256, n / 0x1_0000 % 256, n / 0x100 % 256, n % 256]
            case Bool(flag) => Encode(wire) == [if flag then 0x41 else 0x40]
            case Text(chars) => Encode(wire) == [0x50] + [|chars| / 256 % 256, |chars| % 256] + chars
  {
    match wire
    case LReal(d) => WordBytes(d);
    case Real(f) => FourBytes(f);
    case DInt(n) => FourBytes(n);
    case Bool(_) =>
    case Text(chars) => TwoBytes(|chars|);
  }

  /** Reading undoes writing and consumes exactly what was written. */
  lemma ReadUndoesEncode(wire: Wire, rest: seq<byte>)
    requires wire.Text? ==> |wire.chars| < 0x1_0000
    ensures ReadValue(Encode(wire) + rest) == Read(wire, |Encode(wire)|)
  {
    Powers();
    var buf := Encode(wire) + rest;
    match wire
    case LReal(d) =>
      BigEndianBack(d, 8);
      assert buf[1..9] == BigEndian(d, 8);
    case Real(f) =>
      BigEndianBack(f, 4);
      assert buf[1..5] == BigEndian(f, 4);
    case DInt(n) =>
      SignedBack(n);
      assert buf[1..5] == BigEndian(n, 4);
    case Bool(_) =>
    case Text(chars) =>
      BigEndianBack(|chars|, 2);
      assert buf[1..3] == BigEndian(|chars|, 2);
      assert buf[3..3 + |chars|] == chars;
  }

  /** More bytes never change what was read already, nor a bad tag; and as long as bytes are
      known to be missing, fewer than that do not complete the value. */
  lemma ReadingIsStable(buf: seq<byte>, more: seq<byte>)
    requires buf != []
    ensures ReadValue(buf).Read? ==> ReadValue(buf + more) == ReadValue(buf) && 0 < ReadValue(buf).size <= |buf|
    ensures ReadValue(buf).BadTag? <==> ReadValue(buf + more).BadTag?
    ensures ReadValue(buf).NeedMore? && |more| < ReadValue(buf).missing ==> ReadValue(buf + more).NeedMore?
  {
    var longer := buf + more;
    assert longer[0] == buf[0];
    if |buf| >= 3 {
      assert longer[1..3] == buf[1..3];
      if |buf| >= 3 + FromBigEndian(buf[1..3]) {
        assert longer[3..3 + FromBigEndian(buf[1..3])] == buf[3..3 + FromBigEndian(buf[1..3])];
      }
    }
    if |buf| >= 5 {
      assert longer[1..5] == buf[1..5];
    }
    if |buf| >= 9 {
      assert longer[1..9] == buf[1..9];
    }
  }

  /** An unfinished value is never longer than the longest string without its last byte. */
  lemma UnfinishedIsShort(buf: seq<byte>)
    requires buf != [] && ReadValue(buf).NeedMore?
    ensures |buf| <= 65537
  {
    Powers();
    if |buf| >= 3 {
      FromBigEndianBound(buf[1..3]);
    }
  }
}
