/** The frame error control field: the table-driven CRC-16 of src/osdlp_crc.c, compared with
    the bit-serial shift register it stands for, and what that register detects. */
module Crc {
  import opened Octets

  const PRESET: bv16 := 0xffff

  // ---------------------------------------------------------------------------------------
  // The lookup table
  // ---------------------------------------------------------------------------------------

  /** Selects one of the sixteen entries of a table row. */
  function Column(j: byte, a0: bv16, a1: bv16, a2: bv16, a3: bv16, a4: bv16, a5: bv16, a6: bv16, a7: bv16,
                  a8: bv16, a9: bv16, aA: bv16, aB: bv16, aC: bv16, aD: bv16, aE: bv16, aF: bv16): bv16
  {
    if j < 8 then
      if j < 4 then
        if j < 2 then (if j < 1 then a0 else a1) else (if j < 3 then a2 else a3)
      else
        if j < 6 then (if j < 5 then a4 else a5) else (if j < 7 then a6 else a7)
    else
      if j < 12 then
        if j < 10 then (if j < 9 then a8 else a9) else (if j < 11 then aA else aB)
      else
        if j < 14 then (if j < 13 then aC else aD) else (if j < 15 then aE else aF)
  }

  /** The 256 constants of the table, sixteen to a row. */
  function Table(i: byte): bv16 {
    var j := i & 0x0f;
    match i >> 4
    case 0 =>
      Column(j, 0x0000, 0x1021, 0x2042, 0x3063, 0x4084, 0x50a5, 0x60c6, 0x70e7,
                0x8108, 0x9129, 0xa14a, 0xb16b, 0xc18c, 0xd1ad, 0xe1ce, 0xf1ef)
    case 1 =>
      Column(j, 0x1231, 0x0210, 0x3273, 0x2252, 0x52b5, 0x4294, 0x72f7, 0x62d6,
                0x9339, 0x8318, 0xb37b, 0xa35a, 0xd3bd, 0xc39c, 0xf3ff, 0xe3de)
    case 2 =>
      Column(j, 0x2462, 0x3443, 0x0420, 0x1401, 0x64e6, 0x74c7, 0x44a4, 0x5485,
                0xa56a, 0xb54b, 0x8528, 0x9509, 0xe5ee, 0xf5cf, 0xc5ac, 0xd58d)
    case 3 =>
      Column(j, 0x3653, 0x2672, 0x1611, 0x0630, 0x76d7, 0x66f6, 0x5695, 0x46b4,
                0xb75b, 0xa77a, 0x9719, 0x8738, 0xf7df, 0xe7fe, 0xd79d, 0xc7bc)
    case 4 =>
      Column(j, 0x48c4, 0x58e5, 0x6886, 0x78a7, 0x0840, 0x1861, 0x2802, 0x3823,
                0xc9cc, 0xd9ed, 0xe98e, 0xf9af, 0x8948, 0x9969, 0xa90a, 0xb92b)
    case 5 =>
      Column(j, 0x5af5, 0x4ad4, 0x7ab7, 0x6a96, 0x1a71, 0x0a50, 0x3a33, 0x2a12,
                0xdbfd, 0xcbdc, 0xfbbf, 0xeb9e, 0x9b79, 0x8b58, 0xbb3b, 0xab1a)
    case 6 =>
      Column(j, 0x6ca6, 0x7c87, 0x4ce4, 0x5cc5, 0x2c22, 0x3c03, 0x0c60, 0x1c41,
                0xedae, 0xfd8f, 0xcdec, 0xddcd, 0xad2a, 0xbd0b, 0x8d68, 0x9d49)
    case 7 =>
      Column(j, 0x7e97, 0x6eb6, 0x5ed5, 0x4ef4, 0x3e13, 0x2e32, 0x1e51, 0x0e70,
                0xff9f, 0xefbe, 0xdfdd, 0xcffc, 0xbf1b, 0xaf3a, 0x9f59, 0x8f78)
    case 8 =>
      Column(j, 0x9188, 0x81a9, 0xb1ca, 0xa1eb, 0xd10c, 0xc12d, 0xf14e, 0xe16f,
                0x1080, 0x00a1, 0x30c2, 0x20e3, 0x5004, 0x4025, 0x7046, 0x6067)
    case 9 =>
      Column(j, 0x83b9, 0x9398, 0xa3fb, 0xb3da, 0xc33d, 0xd31c, 0xe37f, 0xf35e,
                0x02b1, 0x1290, 0x22f3, 0x32d2, 0x4235, 0x5214, 0x6277, 0x7256)
    case 10 =>
      Column(j, 0xb5ea, 0xa5cb, 0x95a8, 0x8589, 0xf56e, 0xe54f, 0xd52c, 0xc50d,
                0x34e2, 0x24c3, 0x14a0, 0x0481, 0x7466, 0x6447, 0x5424, 0x4405)
    case 11 =>
      Column(j, 0xa7db, 0xb7fa, 0x8799, 0x97b8, 0xe75f, 0xf77e, 0xc71d, 0xd73c,
                0x26d3, 0x36f2, 0x0691, 0x16b0, 0x6657, 0x7676, 0x4615, 0x5634)
    case 12 =>
      Column(j, 0xd94c, 0xc96d, 0xf90e, 0xe92f, 0x99c8, 0x89e9, 0xb98a, 0xa9ab,
                0x5844, 0x4865, 0x7806, 0x6827, 0x18c0, 0x08e1, 0x3882, 0x28a3)
    case 13 =>
      Column(j, 0xcb7d, 0xdb5c, 0xeb3f, 0xfb1e, 0x8bf9, 0x9bd8, 0xabbb, 0xbb9a,
                0x4a75, 0x5a54, 0x6a37, 0x7a16, 0x0af1, 0x1ad0, 0x2ab3, 0x3a92)
    case 14 =>
      Column(j, 0xfd2e, 0xed0f, 0xdd6c, 0xcd4d, 0xbdaa, 0xad8b, 0x9de8, 0x8dc9,
                0x7c26, 0x6c07, 0x5c64, 0x4c45, 0x3ca2, 0x2c83, 0x1ce0, 0x0cc1)
    case _ =>
      Column(j, 0xef1f, 0xff3e, 0xcf5d, 0xdf7c, 0xaf9b, 0xbfba, 0x8fd9, 0x9ff8,
                0x6e17, 0x7e36, 0x4e55, 0x5e74, 0x2e93, 0x3eb2, 0x0ed1, 0x1ef0)
  }

  // ---------------------------------------------------------------------------------------
  // The reference: a linear feedback shift register fed one bit at a time
  // ---------------------------------------------------------------------------------------

  predicate Msb(r: bv16) {
    r & 0x8000 != 0
  }

  /** One shift of the register, with the generator polynomial 0x1021 fed back or not. */
  function Shift(r: bv16, feedback: bool): bv16 {
    if feedback then (r << 1) ^ 0x1021 else r << 1
  }

  function ShiftIn(r: bv16, bit: bool): bv16 {
    Shift(r, Msb(r) != bit)
  }

  function Register(r: bv16, bits: seq<bool>): bv16
    decreases |bits|
  {
    if bits == [] then r else Register(ShiftIn(r, bits[0]), bits[1..])
  }

  /** The bits of an octet, most significant first. */
  function Bits(x: byte): seq<bool> {
    [x & 0x80 != 0, x & 0x40 != 0, x & 0x20 != 0, x & 0x10 != 0,
     x & 0x08 != 0, x & 0x04 != 0, x & 0x02 != 0, x & 0x01 != 0]
  }

  function BitString(data: seq<byte>): (bits: seq<bool>)
    ensures |bits| == 8 * |data|
  {
    if data == [] then [] else Bits(data[0]) + BitString(data[1..])
  }

  /** The check value of an octet string. */
  function Checksum(data: seq<byte>): bv16 {
    Register(PRESET, BitString(data))
  }

  lemma {:induction false} RegisterAppend(r: bv16, a: seq<bool>, b: seq<bool>)
    ensures Register(r, a + b) == Register(Register(r, a), b)
    decreases |a|
  {
    if a == [] {
      assert a + b == b;
    } else {
      RegisterAppend(ShiftIn(r, a[0]), a[1..], b);
      assert (a + b)[1..] == a[1..] + b;
    }
  }

  lemma {:induction false} BitStringAppend(a: seq<byte>, b: seq<byte>)
    ensures BitString(a + b) == BitString(a) + BitString(b)
  {
    hide Bits;
    if a == [] {
      assert a + b == b;
    } else {
      BitStringAppend(a[1..], b);
      assert (a + b)[1..] == a[1..] + b;
      assert Bits(a[0]) + (BitString(a[1..]) + BitString(b)) == Bits(a[0]) + BitString(a[1..]) + BitString(b);
    }
  }

  lemma {:induction false} BitStringInjective(a: seq<byte>, b: seq<byte>)
    requires |a| == |b| && BitString(a) == BitString(b)
    ensures a == b
  {
    if a != [] {
      var s, t := BitString(a), BitString(b);
      assert Bits(a[0]) == s[..8] == t[..8] == Bits(b[0]);
      assert BitString(a[1..]) == s[8..] == t[8..] == BitString(b[1..]);
      SameBits(a[0], b[0]);
      BitStringInjective(a[1..], b[1..]);
    }
  }

  lemma SameBits(x: byte, y: byte)
    requires Bits(x) == Bits(y)
    ensures x == y
  {
    var s, t := Bits(x), Bits(y);
    assert s[0] == t[0] && s[1] == t[1] && s[2] == t[2] && s[3] == t[3];
    assert s[4] == t[4] && s[5] == t[5] && s[6] == t[6] && s[7] == t[7];
  }

  // ---------------------------------------------------------------------------------------
  // The table-driven loop computes the register
  // ---------------------------------------------------------------------------------------

  function Feed4(r: bv16, a: bool, b: bool, c: bool, d: bool): bv16 {
    ShiftIn(ShiftIn(ShiftIn(ShiftIn(r, a), b), c), d)
  }

  function FeedOctet(r: bv16, x: byte): bv16 {
    Feed4(Feed4(r, x & 0x80 != 0, x & 0x40 != 0, x & 0x20 != 0, x & 0x10 != 0),
          x & 0x08 != 0, x & 0x04 != 0, x & 0x02 != 0, x & 0x01 != 0)
  }

  /** Every table entry is the register after its index has been shifted through it. */
  lemma TableEntry(i: byte)
    ensures Table(i) == FeedOctet(AtTheTop(i), 0)
  {
  }

  /** One turn of the table-driven loop. */
  function TableStep(crc: bv16, x: byte): bv16 {
    Table(Index(crc, x)) ^ (crc << 8)
  }

  lemma MsbOfDifference(u: bv16, v: bv16)
    ensures Msb(u ^ v) == (Msb(u) != Msb(v))
  {
  }

  lemma SameFeedbackShiftsDifference(r: bv16, s: bv16, f: bool)
    ensures Shift(r, f) ^ Shift(s, f) == (r ^ s) << 1
  {
  }

  /** When the bits shifted in differ exactly as the two states' top bits do, both states take the
      same feedback, and their difference is shifted with them. */
  lemma DifferenceShifts(u: bv16, v: bv16, bit: bool)
    requires Msb(u ^ v) == bit
    ensures ShiftIn(u, bit) ^ ShiftIn(v, false) == (u ^ v) << 1
  {
    hide Shift, Msb;
    MsbOfDifference(u, v);
    SameFeedbackShiftsDifference(u, v, Msb(v));
  }

  /** States `u` and `v` differ by `y`. */
  predicate Differ(u: bv16, v: bv16, y: bv16) {
    u ^ v == y
  }

  function Up(y: bv16): bv16 {
    y << 1
  }

  lemma DifferenceMoves(u: bv16, v: bv16, y: bv16)
    requires Differ(u, v, y)
    ensures Differ(ShiftIn(u, Msb(y)), ShiftIn(v, false), Up(y))
  {
    DifferenceShifts(u, v, Msb(y));
    hide ShiftIn, Msb;
  }

  lemma DifferenceMoves4(u: bv16, v: bv16, y: bv16)
    requires Differ(u, v, y)
    ensures Differ(Feed4(u, Msb(y), Msb(Up(y)), Msb(Up(Up(y))), Msb(Up(Up(Up(y))))),
                   Feed4(v, false, false, false, false), Up(Up(Up(Up(y)))))
  {
    hide Differ, Up, ShiftIn, Msb;
    DifferenceMoves(u, v, y);
    var u1, v1 := ShiftIn(u, Msb(y)), ShiftIn(v, false);
    DifferenceMoves(u1, v1, Up(y));
    var u2, v2 := ShiftIn(u1, Msb(Up(y))), ShiftIn(v1, false);
    DifferenceMoves(u2, v2, Up(Up(y)));
    var u3, v3 := ShiftIn(u2, Msb(Up(Up(y)))), ShiftIn(v2, false);
    DifferenceMoves(u3, v3, Up(Up(Up(y))));
  }

  /** The table index of one octet. */
  function Index(r: bv16, x: byte): byte {
    (((r >> 8) ^ (x as bv16)) & 0xff) as byte
  }

  function AtTheTop(i: byte): bv16 {
    (i as bv16) << 8
  }

  lemma TopBitsAreTheOctet(r: bv16, x: byte, y: bv16)
    requires Differ(r, AtTheTop(Index(r, x)), y)
    ensures (x & 0x80 != 0) == Msb(y) && (x & 0x40 != 0) == Msb(Up(y))
    ensures (x & 0x20 != 0) == Msb(Up(Up(y))) && (x & 0x10 != 0) == Msb(Up(Up(Up(y))))
  {
  }

  lemma LowBitsAreTheOctet(r: bv16, x: byte, y: bv16, z: bv16)
    requires Differ(r, AtTheTop(Index(r, x)), y) && z == Up(Up(Up(Up(y))))
    ensures (x & 0x08 != 0) == Msb(z) && (x & 0x04 != 0) == Msb(Up(z))
    ensures (x & 0x02 != 0) == Msb(Up(Up(z))) && (x & 0x01 != 0) == Msb(Up(Up(Up(z))))
    ensures Up(Up(Up(Up(z)))) == r << 8
  {
  }

  lemma DifferencePlusState(u: bv16, v: bv16, y: bv16)
    requires Differ(u, v, y)
    ensures u == v ^ y
  {
  }

  lemma OctetEntersAtTheTop(r: bv16, x: byte)
    ensures Differ(FeedOctet(r, x), FeedOctet(AtTheTop(Index(r, x)), 0), r << 8)
  {
    hide Feed4, Msb, Up, AtTheTop, Index;
    var v := AtTheTop(Index(r, x));
    var y := r ^ v;
    assert Differ(r, v, y);
    hide Differ;
    TopBitsAreTheOctet(r, x, y);
    var z := Up(Up(Up(Up(y))));
    LowBitsAreTheOctet(r, x, y, z);
    DifferenceMoves4(r, v, y);
    DifferenceMoves4(Feed4(r, Msb(y), Msb(Up(y)), Msb(Up(Up(y))), Msb(Up(Up(Up(y))))),
                     Feed4(v, false, false, false, false), z);
  }

  lemma TableStepFeedsOctet(r: bv16, x: byte)
    ensures TableStep(r, x) == FeedOctet(r, x)
  {
    hide Table, FeedOctet, Index, AtTheTop, Differ;
    TableEntry(Index(r, x));
    OctetEntersAtTheTop(r, x);
    DifferencePlusState(FeedOctet(r, x), FeedOctet(AtTheTop(Index(r, x)), 0), r << 8);
  }

  lemma RegisterFeed4(r: bv16, bits: seq<bool>)
    requires |bits| >= 4
    ensures Register(r, bits) == Register(Feed4(r, bits[0], bits[1], bits[2], bits[3]), bits[4..])
  {
    hide ShiftIn;
    var r1 := ShiftIn(r, bits[0]);
    var r2 := ShiftIn(r1, bits[1]);
    var r3 := ShiftIn(r2, bits[2]);
    assert bits[1..][1..] == bits[2..] && bits[2..][1..] == bits[3..] && bits[3..][1..] == bits[4..];
    assert Register(r1, bits[1..]) == Register(r2, bits[2..]);
    assert Register(r2, bits[2..]) == Register(r3, bits[3..]);
  }

  lemma FeedOctetIsRegister(r: bv16, x: byte)
    ensures Register(r, Bits(x)) == FeedOctet(r, x)
  {
    hide Feed4;
    var b := Bits(x);
    var s := Feed4(r, b[0], b[1], b[2], b[3]);
    RegisterFeed4(r, b);
    RegisterFeed4(s, b[4..]);
    assert b[4..][4..] == [];
    assert b[4..][0] == b[4] && b[4..][1] == b[5] && b[4..][2] == b[6] && b[4..][3] == b[7];
    assert Register(Feed4(s, b[4], b[5], b[6], b[7]), []) == Feed4(s, b[4], b[5], b[6], b[7]);
  }

  /** Appending one octet to the data is one table step on the check value. */
  lemma ChecksumSnoc(data: seq<byte>, x: byte)
    ensures Checksum(data + [x]) == TableStep(Checksum(data), x)
  {
    BitStringAppend(data, [x]);
    assert BitString([x]) == Bits(x) by { assert BitString([x][1..]) == []; }
    RegisterAppend(PRESET, BitString(data), Bits(x));
    FeedOctetIsRegister(Checksum(data), x);
    TableStepFeedsOctet(Checksum(data), x);
  }

  /** The check value of the first `length` octets, by table lookup. */
  method CalcCrc(data: array<byte>, length: nat) returns (crc: bv16)
    requires length <= data.Length
    ensures crc == Checksum(data[..length])
  {
    crc := PRESET;
    assert BitString(data[..0]) == [];
    for i := 0 to length
      invariant crc == Checksum(data[..i])
    {
      ChecksumSnoc(data[..i], data[i]);
      assert data[..i + 1] == data[..i] + [data[i]];
      crc := TableStep(crc, data[i]);
    }
  }

  lemma NothingFed()
    ensures Checksum([]) == 0xffff
  {
  }

  lemma FirstDigits()
    ensures TableStep(0xffff, 0x31) == 0xc782 && TableStep(0xc782, 0x32) == 0x3dba
    ensures TableStep(0x3dba, 0x33) == 0x5bce && TableStep(0x5bce, 0x34) == 0x5349
  {
  }

  lemma LastDigits()
    ensures TableStep(0x5349, 0x35) == 0x4560 && TableStep(0x4560, 0x36) == 0x2ef4
    ensures TableStep(0x2ef4, 0x37) == 0x7718 && TableStep(0x7718, 0x38) == 0xa12b
    ensures TableStep(0xa12b, 0x39) == 0x29b1
  {
  }

  /** The check value of the nine digits "123456789" is the one listed for the generator polynomial 0x1021
      with the register preset to all ones. */
  lemma CheckValueOfDigits()
    ensures Checksum([0x31, 0x32, 0x33, 0x34, 0x35, 0x36, 0x37, 0x38, 0x39]) == 0x29b1
  {
    hide *;
    NothingFed();
    FirstDigits();
    LastDigits();
    ChecksumSnoc([], 0x31);
    ChecksumSnoc([] + [0x31], 0x32);
    ChecksumSnoc([] + [0x31] + [0x32], 0x33);
    ChecksumSnoc([] + [0x31] + [0x32] + [0x33], 0x34);
    var d := [] + [0x31] + [0x32] + [0x33] + [0x34];
    assert Checksum(d) == 0x5349;
    ChecksumSnoc(d, 0x35);
    ChecksumSnoc(d + [0x35], 0x36);
    ChecksumSnoc(d + [0x35] + [0x36], 0x37);
    ChecksumSnoc(d + [0x35] + [0x36] + [0x37], 0x38);
    ChecksumSnoc(d + [0x35] + [0x36] + [0x37] + [0x38], 0x39);
    assert d + [0x35] + [0x36] + [0x37] + [0x38] + [0x39] == [0x31, 0x32, 0x33, 0x34, 0x35, 0x36, 0x37, 0x38, 0x39];
  }

  // ---------------------------------------------------------------------------------------
  // Burst detection
  // ---------------------------------------------------------------------------------------

  lemma ShiftShowsFeedback(r: bv16, s: bv16, p: bool, q: bool)
    requires Shift(r, p) == Shift(s, q)
    ensures p == q && r << 1 == s << 1
  {
  }

  lemma ShiftKeepsLowBits(r: bv16, s: bv16)
    requires r << 1 == s << 1 && Msb(r) == Msb(s)
    ensures r == s
  {
  }

  /** The register keeps different states apart as long as the same bits are shifted in. */
  lemma ShiftInInjective(r: bv16, s: bv16, bit: bool)
    requires ShiftIn(r, bit) == ShiftIn(s, bit)
    ensures r == s
  {
    ShiftShowsFeedback(r, s, Msb(r) != bit, Msb(s) != bit);
    ShiftKeepsLowBits(r, s);
  }

  lemma {:induction false} RegisterInjective(r: bv16, s: bv16, bits: seq<bool>)
    requires Register(r, bits) == Register(s, bits)
    ensures r == s
    decreases |bits|
  {
    if bits != [] {
      RegisterInjective(ShiftIn(r, bits[0]), ShiftIn(s, bits[0]), bits[1..]);
      ShiftInInjective(r, s, bits[0]);
    }
  }

  /** The two states differ in one of the bits of the mask. */
  predicate Apart(r: bv16, s: bv16, mask: bv16) {
    (r ^ s) & mask != 0
  }

  function Widen(mask: bv16): bv16 {
    (mask << 1) | 1
  }

  lemma SameFeedbackStaysApart(r: bv16, s: bv16, mask: bv16, f: bool)
    requires Apart(r, s, mask) && !Msb(mask)
    ensures Apart(Shift(r, f), Shift(s, f), Widen(mask))
  {
    SameFeedbackShiftsDifference(r, s, f);
    hide Shift;
    var d := r ^ s;
    assert d & mask != 0 && mask & 0x8000 == 0;
    assert (d << 1) & ((mask << 1) | 1) != 0;
  }

  lemma OtherFeedbackComesApart(r: bv16, s: bv16, mask: bv16, f: bool)
    ensures Apart(Shift(r, f), Shift(s, !f), Widen(mask))
  {
  }

  /** Two states that differ in their low bits still do after one more shift, whatever is shifted in. */
  lemma StaysApart(r: bv16, s: bv16, mask: bv16, a: bool, b: bool)
    requires Apart(r, s, mask) && !Msb(mask)
    ensures Apart(ShiftIn(r, a), ShiftIn(s, b), Widen(mask))
  {
    hide Apart, Shift, Msb, Widen;
    if (Msb(r) != a) == (Msb(s) != b) {
      SameFeedbackStaysApart(r, s, mask, Msb(r) != a);
    } else {
      OtherFeedbackComesApart(r, s, mask, Msb(r) != a);
    }
  }

  lemma ApartMeansDifferent(r: bv16, s: bv16, mask: bv16)
    requires Apart(r, s, mask)
    ensures r != s
  {
  }

  /** The number of low bits below which two diverged states are known to differ, as a mask. */
  function LowMask(n: nat): bv16
    requires n <= 16
  {
    if n == 0 then 0 else Widen(LowMask(n - 1))
  }

  lemma LowMaskFits(n: nat)
    requires n < 16
    ensures !Msb(LowMask(n))
  {
    if n >= 1 { assert LowMask(1) == 0x0001 && LowMask(2) == 0x0003 && LowMask(3) == 0x0007 && LowMask(4) == 0x000f; }
    if n >= 5 { assert LowMask(5) == 0x001f && LowMask(6) == 0x003f && LowMask(7) == 0x007f && LowMask(8) == 0x00ff; }
    if n >= 9 {
      assert LowMask(9) == 0x01ff && LowMask(10) == 0x03ff && LowMask(11) == 0x07ff && LowMask(12) == 0x0fff;
    }
    if n >= 13 { assert LowMask(13) == 0x1fff && LowMask(14) == 0x3fff && LowMask(15) == 0x7fff; }
  }

  lemma {:induction false} DivergedStaysApart(r: bv16, s: bv16, n: nat, a: seq<bool>, b: seq<bool>)
    requires |a| == |b| && n + |a| <= 16
    requires Apart(r, s, LowMask(n))
    ensures Register(r, a) != Register(s, b)
    decreases |a|
  {
    hide Apart, ShiftIn, Msb, Widen;
    if a == [] {
      ApartMeansDifferent(r, s, LowMask(n));
    } else {
      LowMaskFits(n);
      StaysApart(r, s, LowMask(n), a[0], b[0]);
      DivergedStaysApart(ShiftIn(r, a[0]), ShiftIn(s, b[0]), n + 1, a[1..], b[1..]);
    }
  }

  lemma FirstDifference(r: bv16, a: bool)
    ensures Apart(ShiftIn(r, a), ShiftIn(r, !a), LowMask(1))
  {
    hide Apart, Shift, Msb, Widen;
    OtherFeedbackComesApart(r, r, LowMask(0), Msb(r) != a);
  }

  /** From one state, strings of at most sixteen bits that lead to the same state are the same. */
  lemma {:induction false} ShortStringsSeparate(r: bv16, a: seq<bool>, b: seq<bool>)
    requires |a| == |b| <= 16 && Register(r, a) == Register(r, b)
    ensures a == b
    decreases |a|
  {
    hide ShiftIn;
    if a != [] {
      if a[0] == b[0] {
        ShortStringsSeparate(ShiftIn(r, a[0]), a[1..], b[1..]);
        assert a == [a[0]] + a[1..] && b == [b[0]] + b[1..];
      } else {
        FirstDifference(r, a[0]);
        DivergedStaysApart(ShiftIn(r, a[0]), ShiftIn(r, b[0]), 1, a[1..], b[1..]);
        assert false;
      }
    }
  }

  /** The two octet strings differ at most in the `width` bits from bit position `k` on. */
  ghost predicate DifferInBurst(f: seq<byte>, g: seq<byte>, k: nat, width: nat) {
    && |f| == |g| && k + width <= 8 * |f|
    && BitString(f)[..k] == BitString(g)[..k]
    && BitString(f)[k + width..] == BitString(g)[k + width..]
  }

  /** Any error burst of at most sixteen bits, at any bit position of a string of any length,
      changes the check value. */
  lemma BurstChangesChecksum(f: seq<byte>, g: seq<byte>, k: nat, width: nat)
    requires DifferInBurst(f, g, k, width) && width <= 16
    requires Checksum(f) == Checksum(g)
    ensures f == g
  {
    var x, y := BitString(f), BitString(g);
    var s := Register(PRESET, x[..k]);
    var a, b := x[k..k + width], y[k..k + width];
    assert x == x[..k] + (a + x[k + width..]);
    assert y == y[..k] + (b + y[k + width..]);
    RegisterAppend(PRESET, x[..k], a + x[k + width..]);
    RegisterAppend(PRESET, y[..k], b + y[k + width..]);
    RegisterAppend(s, a, x[k + width..]);
    RegisterAppend(s, b, y[k + width..]);
    RegisterInjective(Register(s, a), Register(s, b), x[k + width..]);
    ShortStringsSeparate(s, a, b);
    assert x == y;
    BitStringInjective(f, g);
  }

  // ---------------------------------------------------------------------------------------
  // Frames that end in their own check value
  // ---------------------------------------------------------------------------------------

  /** The comparison both receivers make: the last two octets are the check value of the rest. */
  predicate CheckPasses(frame: seq<byte>)
    requires |frame| >= 2
  {
    var n := |frame| - 2;
    Checksum(frame[..n]) == Word(frame[n], frame[n + 1])
  }

  lemma OctetCancels(c: bv16)
    ensures Index(c, High(c)) == 0 && Index(c << 8, Low(c)) == 0
    ensures 0 ^ (c << 8) == c << 8 && 0 ^ ((c << 8) << 8) == 0
  {
  }

  lemma TableStepsCancel(c: bv16)
    ensures TableStep(TableStep(c, High(c)), Low(c)) == 0
  {
    hide Index;
    OctetCancels(c);
    assert Table(0) == 0;
    hide Table;
  }

  /** The octets followed by their check value. */
  function Seal(body: seq<byte>): seq<byte> {
    body + [High(Checksum(body)), Low(Checksum(body))]
  }

  lemma SealPasses(body: seq<byte>)
    ensures CheckPasses(Seal(body))
  {
    hide Checksum, High, Low, Word;
    assert Seal(body)[..|body|] == body;
    WordOfHalves(Checksum(body));
  }

  /** Appends the check value of the first `length` octets of the buffer to them. */
  method SealInPlace(out: array<byte>, length: nat) returns (crc: bv16)
    requires length + 2 <= out.Length
    modifies out
    ensures out[..length + 2] == Seal(old(out[..length])) && out[length + 2..] == old(out[length + 2..])
    ensures crc == Checksum(old(out[..length]))
  {
    hide Checksum, High, Low;
    ghost var body := out[..length];
    crc := CalcCrc(out, length);
    out[length], out[length + 1] := High(crc), Low(crc);
    assert out[..length] == body;
  }

  /** Comparing the trailing octets is the same as asking for a zero check value of the whole frame. */
  lemma CheckPassesIffZero(frame: seq<byte>)
    requires |frame| >= 2
    ensures CheckPasses(frame) <==> Checksum(frame) == 0
  {
    var n := |frame| - 2;
    var c := Checksum(frame[..n]);
    var sealed := frame[..n] + [High(c), Low(c)];
    ChecksumSnoc(frame[..n], High(c));
    ChecksumSnoc(frame[..n] + [High(c)], Low(c));
    assert sealed == frame[..n] + [High(c)] + [Low(c)];
    TableStepsCancel(c);
    WordOfHalves(c);
    if Checksum(frame) == 0 {
      SamePrefixDiffersInBurst(frame, sealed, n);
      BurstChangesChecksum(frame, sealed, 8 * n, 16);
    }
    if CheckPasses(frame) {
      HalvesOfWord(frame[n], frame[n + 1]);
      assert frame == sealed;
    }
  }

  lemma SamePrefixDiffersInBurst(f: seq<byte>, g: seq<byte>, n: nat)
    requires |f| == |g| == n + 2 && f[..n] == g[..n]
    ensures DifferInBurst(f, g, 8 * n, 16)
  {
    BitStringSplit(f, n);
    BitStringSplit(g, n);
  }

  /** No frame that passes the check turns into another frame that passes it by a burst of up to
      sixteen bits, wherever the burst falls and however long the frame is. */
  lemma BurstIsDetected(sent: seq<byte>, received: seq<byte>, k: nat, width: nat)
    requires |sent| >= 2 && CheckPasses(sent)
    requires DifferInBurst(sent, received, k, width) && width <= 16 && sent != received
    ensures !CheckPasses(received)
  {
    CheckPassesIffZero(sent);
    CheckPassesIffZero(received);
    if CheckPasses(received) {
      BurstChangesChecksum(sent, received, k, width);
    }
  }

  /** In particular any corruption of two neighbouring octets is detected. */
  lemma TwoOctetsAreDetected(sent: seq<byte>, received: seq<byte>, i: nat)
    requires |sent| == |received| && i + 2 <= |sent| && CheckPasses(sent)
    requires forall j :: 0 <= j < |sent| && j != i && j != i + 1 ==> sent[j] == received[j]
    requires sent != received
    ensures !CheckPasses(received)
  {
    AgreeOutside(sent, received, i);
    BurstIsDetected(sent, received, 8 * i, 16);
  }

  lemma AgreeOutside(f: seq<byte>, g: seq<byte>, i: nat)
    requires |f| == |g| && i + 2 <= |f|
    requires forall j :: 0 <= j < |f| && j != i && j != i + 1 ==> f[j] == g[j]
    ensures DifferInBurst(f, g, 8 * i, 16)
  {
    assert f[..i] == g[..i] && f[i + 2..] == g[i + 2..];
    BitStringSplit(f, i);
    BitStringSplit(g, i);
    BitStringSplit(f, i + 2);
    BitStringSplit(g, i + 2);
  }

  lemma BitStringSplit(f: seq<byte>, i: nat)
    requires i <= |f|
    ensures BitString(f)[..8 * i] == BitString(f[..i])
    ensures BitString(f)[8 * i..] == BitString(f[i..])
  {
    assert f == f[..i] + f[i..];
    BitStringAppend(f[..i], f[i..]);
  }
}
