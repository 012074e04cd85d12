/** The layout of the frame headers bit by bit: the header fields as binary numbers, one after the other,
    most significant bit first (src/osdlp_tc.c:90-182, src/osdlp_tm.c:96-201). */
module FrameBits {
  import opened Octets
  import opened CopTypes
  import opened Crc
  import TC = TcFrame
  import TM = TmFrame
  import TmTypes

  /** The last n binary digits of a number. */
  function Digits(v: nat, n: nat): (bits: seq<bool>)
    ensures |bits| == n
  {
    if n == 0 then [] else Digits(v / 2, n - 1) + [v % 2 == 1]
  }

  // ---------------------------------------------------------------------------------------
  // Octets and the numbers they stand for
  // ---------------------------------------------------------------------------------------

  /** The last n bits of an octet. */
  function Field(v: bv8, n: nat): (bits: seq<bool>)
    ensures |bits| == n
  {
    if n == 0 then [] else Field(v >> 1, n - 1) + [v & 1 != 0]
  }

  lemma Halves(v: bv8)
    ensures (v >> 1) as int == (v as int) / 2 && (v & 1 != 0) == ((v as int) % 2 == 1)
  {
  }

  lemma {:induction false} FieldIsNumber(v: bv8, n: nat)
    ensures Field(v, n) == Digits(v as int, n)
  {
    if n > 0 {
      Halves(v);
      FieldIsNumber(v >> 1, n - 1);
    }
  }

  lemma ShiftedBits(v: bv8)
    ensures var w := v >> 1;
            && (w & 0x01 != 0) == (v & 0x02 != 0) && (w & 0x02 != 0) == (v & 0x04 != 0)
            && (w & 0x04 != 0) == (v & 0x08 != 0) && (w & 0x08 != 0) == (v & 0x10 != 0)
            && (w & 0x10 != 0) == (v & 0x20 != 0) && (w & 0x20 != 0) == (v & 0x40 != 0)
            && (w & 0x40 != 0) == (v & 0x80 != 0)
  {
  }

  lemma NextField(v: bv8, n: nat)
    ensures Field(v, n + 1) == Field(v >> 1, n) + [v & 1 != 0]
    ensures Field(v, 0) == []
  {
  }

  lemma SmallFields(v: bv8)
    ensures Field(v, 1) == [v & 1 != 0] && Field(v, 2) == [v & 2 != 0, v & 1 != 0]
    ensures Field(v, 3) == [v & 4 != 0, v & 2 != 0, v & 1 != 0]
  {
    hide Field;
    ShiftedBits(v);
    ShiftedBits(v >> 1);
    NextField(v, 0);
    NextField(v, 1);
    NextField(v, 2);
    NextField(v >> 1, 0);
    NextField(v >> 1, 1);
    NextField(v >> 1 >> 1, 0);
  }

  lemma FieldOfFour(v: bv8)
    ensures Field(v, 4) == [v & 8 != 0, v & 4 != 0, v & 2 != 0, v & 1 != 0]
  {
    hide Field;
    ShiftedBits(v);
    NextField(v, 3);
    SmallFields(v >> 1);
  }

  lemma FieldOfSix(v: bv8)
    ensures Field(v, 6) == [v & 0x20 != 0, v & 0x10 != 0, v & 8 != 0, v & 4 != 0, v & 2 != 0, v & 1 != 0]
  {
    hide Field;
    ShiftedBits(v);
    ShiftedBits(v >> 1);
    NextField(v, 5);
    NextField(v >> 1, 4);
    FieldOfFour(v >> 1 >> 1);
  }

  lemma FieldOfEight(v: bv8)
    ensures Field(v, 8) == Bits(v)
  {
    hide Field;
    ShiftedBits(v);
    ShiftedBits(v >> 1);
    NextField(v, 7);
    NextField(v >> 1, 6);
    FieldOfSix(v >> 1 >> 1);
  }

  /** The bits of an octet are the eight binary digits of its value. */
  lemma BitsAreDigits(v: bv8)
    ensures Bits(v) == Digits(v as int, 8)
  {
    hide Bits;
    FieldOfEight(v);
    FieldIsNumber(v, 8);
  }

  /** A number with n digits 0 put behind its own. */
  function Raised(v: nat, n: nat): nat {
    if n == 0 then v else 2 * Raised(v, n - 1)
  }

  lemma HalveSum(q: nat, lo: nat)
    ensures (2 * q + lo) / 2 == q + lo / 2 && (2 * q + lo) % 2 == lo % 2
  {
  }

  lemma {:induction false} DigitsJoin(hi: nat, lo: nat, n: nat, m: nat)
    requires lo < Raised(1, m)
    ensures Digits(Raised(hi, m) + lo, n + m) == Digits(hi, n) + Digits(lo, m)
    decreases m
  {
    if m > 0 {
      HalveSum(Raised(hi, m - 1), lo);
      DigitsJoin(hi, lo / 2, n, m - 1);
      assert Digits(hi, n) + Digits(lo / 2, m - 1) + [lo % 2 == 1] == Digits(hi, n) + Digits(lo, m);
    }
  }

  lemma {:induction false} OnlyLastDigits(v: nat, q: nat, n: nat)
    ensures Digits(Raised(q, n) + v, n) == Digits(v, n)
  {
    if n > 0 {
      HalveSum(Raised(q, n - 1), v);
      OnlyLastDigits(v / 2, q, n - 1);
    }
  }

  lemma RaisedByFew(v: nat)
    ensures Raised(v, 2) == 4 * v && Raised(v, 3) == 8 * v && Raised(v, 8) == 256 * v
  {
    assert Raised(v, 1) == 2 * v && Raised(v, 2) == 4 * v && Raised(v, 3) == 8 * v && Raised(v, 4) == 16 * v;
    assert Raised(v, 5) == 32 * v && Raised(v, 6) == 64 * v && Raised(v, 7) == 128 * v;
  }

  lemma LastDigits(v: nat)
    ensures Digits(v % 4, 2) == Digits(v, 2) && Digits(v % 8, 3) == Digits(v, 3)
  {
    RaisedByFew(v / 4);
    RaisedByFew(v / 8);
    OnlyLastDigits(v % 4, v / 4, 2);
    OnlyLastDigits(v % 8, v / 8, 3);
  }

  /** A number of two octets, the upper one given by its last n digits. */
  lemma DigitsOfTwoOctets(hi: nat, lo: nat, n: nat)
    requires lo < 256
    ensures Digits(256 * hi + lo, n + 8) == Digits(hi, n) + Digits(lo, 8)
  {
    RaisedByFew(hi);
    RaisedByFew(1);
    DigitsJoin(hi, lo, n, 8);
  }

  // ---------------------------------------------------------------------------------------
  // TC frames
  // ---------------------------------------------------------------------------------------

  /** The header of a TC frame: 2 bits of version, the bypass and the control command flag, 2 spare bits, 10
      bits of spacecraft and 6 of virtual channel, 10 of frame length less one, 8 of sequence number. */
  function TcPrimaryBits(p: TC.Primary, lengthLessOne: nat, number: byte): (bits: seq<bool>)
    ensures |bits| == 40
  {
    Digits(p.version as int, 2) + Digits(p.bypass as int, 1) + Digits(p.ctrl as int, 1) + Digits(p.spare as int, 2)
    + Digits(p.scid as int, 10) + Digits(p.vcid as int, 6) + Digits(lengthLessOne, 10) + Digits(number as int, 8)
  }

  /** A segment header follows: 2 bits of sequence flags and 6 of MAP identifier. */
  function TcHeaderBits(p: TC.Primary, lengthLessOne: nat, number: byte, seg: Option<TC.SegOctet>): seq<bool> {
    TcPrimaryBits(p, lengthLessOne, number)
    + match seg case None => [] case Some(s) => Digits(s.flag as int, 2) + Digits(s.mapId as int, 6)
  }

  lemma WordValue(scid: bv16)
    ensures scid as int == 256 * (High(scid) as int) + (Low(scid) as int)
  {
    WordOfHalves(scid);
    ValueOfWord(High(scid), Low(scid));
  }

  lemma ValueOfWord(hi: byte, lo: byte)
    ensures Word(hi, lo) as int == 256 * (hi as int) + (lo as int)
  {
    ShiftedValue(hi);
    JoinedValue((hi as bv16) << 8, lo);
  }

  lemma ShiftedValue(hi: bv8)
    ensures ((hi as bv16) << 8) as int == 256 * (hi as int)
  {
  }

  lemma JoinedValue(w: bv16, lo: bv8)
    requires w & 0xff == 0
    ensures (w | (lo as bv16)) as int == (w as int) + (lo as int)
  {
  }

  lemma TenDigits(scid: bv16)
    ensures Digits(scid as int, 10) == Field(High(scid), 2) + Bits(Low(scid))
  {
    hide High, Low, Bits;
    WordValue(scid);
    UpperAndLower(High(scid), Low(scid), 2);
  }

  lemma ValueBound(b: byte)
    ensures b as int < 256
  {
  }

  lemma Octet0Bits(p: TC.Primary)
    ensures Bits(TC.Octet0(p)) == Field(p.version, 2) + Field(p.bypass, 1) + Field(p.ctrl, 1) + Field(p.spare, 2)
                                  + Field(High(p.scid), 2)
  {
    hide Bits, High, TC.Octet0, Field;
    Octet0Bitwise(p);
    SmallFields(p.version);
    SmallFields(p.bypass);
    SmallFields(p.ctrl);
    SmallFields(p.spare);
    SmallFields(High(p.scid));
    var v, b, c, r, hi := p.version, p.bypass, p.ctrl, p.spare, High(p.scid);
    EightBits(v & 2 != 0, v & 1 != 0, b & 1 != 0, c & 1 != 0, r & 2 != 0, r & 1 != 0, hi & 2 != 0, hi & 1 != 0);
  }

  lemma EightBits(a: bool, b: bool, c: bool, d: bool, e: bool, f: bool, g: bool, h: bool)
    ensures [a, b] + [c] + [d] + [e, f] + [g, h] == [a, b, c, d, e, f, g, h] == [a, b] + [c, d, e, f, g, h]
  {
  }

  lemma Octet0Bitwise(p: TC.Primary)
    ensures var hi := High(p.scid);
            Bits(TC.Octet0(p)) == [p.version & 2 != 0, p.version & 1 != 0, p.bypass & 1 != 0, p.ctrl & 1 != 0,
                                   p.spare & 2 != 0, p.spare & 1 != 0, hi & 2 != 0, hi & 1 != 0]
  {
  }

  lemma Octet2Bits(vcid: bv8, lengthBits: bv8)
    ensures Bits(TC.Octet2(vcid, lengthBits)) == Field(vcid, 6) + Field(lengthBits, 2)
  {
    FieldOfSix(vcid);
    SmallFields(lengthBits);
    hide Field;
  }

  lemma Octet5Bits(s: TC.SegOctet)
    ensures Bits(TC.Octet5(s)) == Field(s.flag, 2) + Field(s.mapId, 6)
  {
    hide Bits, TC.Octet5, Field;
    Octet5Bitwise(s);
    FieldOfSix(s.mapId);
    SmallFields(s.flag);
    var f, m := s.flag, s.mapId;
    EightBits(f & 2 != 0, f & 1 != 0, m & 0x20 != 0, m & 0x10 != 0, m & 8 != 0, m & 4 != 0, m & 2 != 0, m & 1 != 0);
  }

  lemma Octet5Bitwise(s: TC.SegOctet)
    ensures var m := s.mapId;
            Bits(TC.Octet5(s)) == [s.flag & 2 != 0, s.flag & 1 != 0, m & 0x20 != 0, m & 0x10 != 0, m & 8 != 0,
                                   m & 4 != 0, m & 2 != 0, m & 1 != 0]
  {
  }

  lemma LengthDigits(n: nat)
    ensures Digits(n, 10) == Field(TC.LengthBits(n), 2) + Bits(LowOctet(n))
  {
    hide Bits;
    OctetValue(n / 256 % 4);
    OctetValue(n % 256);
    LastDigits(n / 256);
    DigitsOfTwoOctets(n / 256, n % 256, 2);
    FieldIsNumber(TC.LengthBits(n), 2);
    BitsAreDigits(LowOctet(n));
  }

  lemma FiveOctets(a: byte, b: byte, c: byte, d: byte, e: byte)
    ensures BitString([a, b, c, d, e]) == Bits(a) + Bits(b) + Bits(c) + Bits(d) + Bits(e)
  {
    hide Bits;
    assert [a, b, c, d, e] == [a] + [b] + [c] + [d] + [e];
    BitStringAppend([a] + [b] + [c] + [d], [e]);
    BitStringAppend([a] + [b] + [c], [d]);
    BitStringAppend([a] + [b], [c]);
    BitStringAppend([a], [b]);
    OneOctet(a);
    OneOctet(b);
    OneOctet(c);
    OneOctet(d);
    OneOctet(e);
  }

  lemma OneOctet(a: byte)
    ensures BitString([a]) == Bits(a)
  {
    hide Bits;
    assert BitString([a][1..]) == [];
  }

  lemma AcrossOctets<T>(front: seq<T>, sh: seq<T>, sl: seq<T>, vc: seq<T>, lh: seq<T>, ll: seq<T>, n: seq<T>)
    ensures (front + sh) + sl + (vc + lh) + ll + n == front + (sh + sl) + vc + (lh + ll) + n
  {
    assert (front + sh) + sl == front + (sh + sl);
    var x := front + (sh + sl);
    assert x + (vc + lh) == (x + vc) + lh;
    assert ((x + vc) + lh) + ll == (x + vc) + (lh + ll);
  }

  /** The five octets of a primary header, of whatever values. */
  lemma PrimaryBits(p: TC.Primary, o2: byte, o3: byte, lengthBits: byte, length: nat, number: byte)
    requires Bits(o2) == Field(p.vcid, 6) + Field(lengthBits, 2)
    requires Digits(length, 10) == Field(lengthBits, 2) + Bits(o3)
    ensures BitString([TC.Octet0(p), TC.Octet1(p), o2, o3, number]) == TcPrimaryBits(p, length, number)
  {
    hide Bits, Field, Digits, TC.Octet0;
    FiveOctets(TC.Octet0(p), TC.Octet1(p), o2, o3, number);
    Octet0Bits(p);
    TenDigits(p.scid);
    assert TC.Octet1(p) == Low(p.scid);
    FieldIsNumber(p.version, 2);
    FieldIsNumber(p.bypass, 1);
    FieldIsNumber(p.ctrl, 1);
    FieldIsNumber(p.spare, 2);
    FieldIsNumber(p.vcid, 6);
    BitsAreDigits(number);
    AcrossOctets(Field(p.version, 2) + Field(p.bypass, 1) + Field(p.ctrl, 1) + Field(p.spare, 2),
                 Field(High(p.scid), 2), Bits(Low(p.scid)), Field(p.vcid, 6), Field(lengthBits, 2), Bits(o3),
                 Bits(number));
  }

  lemma SegmentBits(s: TC.SegOctet)
    ensures BitString([TC.Octet5(s)]) == Digits(s.flag as int, 2) + Digits(s.mapId as int, 6)
  {
    hide Bits, Field, Digits, TC.Octet5;
    OneOctet(TC.Octet5(s));
    Octet5Bits(s);
    FieldIsNumber(s.flag, 2);
    FieldIsNumber(s.mapId, 6);
  }

  /** A packed frame begins with the fields in this order; a type-B frame, which is one whose bypass flag is
      set, has the sequence number zero. */
  lemma TcFrameIsLaidOut(cfg: TC.Config, p: TC.Primary, vs: byte, seg: TC.SegOctet, data: seq<byte>)
    ensures var s := TC.Packed(cfg, p, vs, seg, data);
            var n := if cfg.hasSeg then 6 else 5;
            && n + |data| <= |s|
            && BitString(s[..n]) == TcHeaderBits(p, |s| - 1, if p.bypass == 0 then vs else 0,
                                                 if cfg.hasSeg then Some(seg) else None)
            && s[n..n + |data|] == data
  {
    hide Bits, Field, Digits, BitString, TC.Octet0, TC.Octet1, TC.Octet2, TC.Octet5, TC.Packed, TcPrimaryBits;
    var s := TC.Packed(cfg, p, vs, seg, data);
    var number := if p.bypass == 0 then vs else 0;
    TC.HeaderAndDataLie(cfg, p, vs, seg, data, []);
    assert s + [] == s;
    Octet2Bits(p.vcid, TC.LengthBits(|s| - 1));
    LengthDigits(|s| - 1);
    var primary := [TC.Octet0(p), TC.Octet1(p), TC.Octet2(p.vcid, TC.LengthBits(|s| - 1)), LowOctet(|s| - 1), number];
    PrimaryBits(p, primary[2], primary[3], TC.LengthBits(|s| - 1), |s| - 1, number);
    if cfg.hasSeg {
      SegmentBits(seg);
      BitStringAppend(primary, [TC.Octet5(seg)]);
    } else {
      assert primary + [] == primary && TcPrimaryBits(p, |s| - 1, number) + [] == TcPrimaryBits(p, |s| - 1, number);
    }
  }

  lemma OctetsOfFields(o0: byte, o1: byte, o2: byte)
    ensures var p := TC.PrimaryOf(o0, o1, o2);
            TC.Fits(p) && TC.Octet0(p) == o0 && TC.Octet1(p) == o1 && TC.Octet2(p.vcid, o2 & 0x03) == o2
  {
  }

  lemma OctetOfSegment(o5: byte)
    ensures TC.SegFits(TC.SegOctetOf(o5)) && TC.Octet5(TC.SegOctetOf(o5)) == o5
  {
  }

  lemma LastTwoBits(o2: byte)
    ensures ((o2 & 0x03) as int) < 4
  {
  }

  lemma LengthFieldDigits(o2: byte, o3: byte)
    ensures var n := TC.LengthField(o2, o3);
            n < 1024 && Digits(n, 10) == Field(o2 & 0x03, 2) + Bits(o3)
  {
    hide Bits, Digits;
    LastTwoBits(o2);
    ValueBound(o3);
    UpperAndLower(o2 & 0x03, o3, 2);
  }

  /** The last digits of an octet in front of those of another one. */
  lemma UpperAndLower(hi: byte, lo: byte, n: nat)
    ensures Digits(256 * (hi as int) + (lo as int), n + 8) == Field(hi, n) + Bits(lo)
  {
    hide Bits, Digits;
    ValueBound(lo);
    DigitsOfTwoOctets(hi as int, lo as int, n);
    FieldIsNumber(hi, n);
    BitsAreDigits(lo);
  }

  /** Whatever the octets received, the fields unpacking finds in them are these very bits. */
  lemma TcFrameIsReadSo(cfg: TC.Config, s: seq<byte>)
    requires TC.Readable(cfg, s)
    ensures var u := TC.Unpacking(cfg, s);
            var n := if cfg.hasSeg then 6 else 5;
            && TC.Fits(u.p) && u.frameLen < 1024 && (u.seg.Some? ==> TC.SegFits(u.seg.value))
            && u.dataFrom == n && (u.seg.Some? <==> cfg.hasSeg)
            && BitString(s[..n]) == TcHeaderBits(u.p, u.frameLen, u.seqNum, u.seg)
  {
    hide Bits, Field, Digits, BitString, TC.Octet0, TC.Octet1, TC.Octet2, TC.Octet5, TC.PrimaryOf, TC.SegOctetOf,
         TC.LengthField, TcPrimaryBits, TC.Fits, TC.SegFits;
    var u := TC.Unpacking(cfg, s);
    OctetsOfFields(s[0], s[1], s[2]);
    Octet2Bits(u.p.vcid, s[2] & 0x03);
    LengthFieldDigits(s[2], s[3]);
    PrimaryBits(u.p, s[2], s[3], s[2] & 0x03, u.frameLen, s[4]);
    var primary := [s[0], s[1], s[2], s[3], s[4]];
    assert s[..5] == primary;
    if cfg.hasSeg {
      OctetOfSegment(s[5]);
      SegmentBits(TC.SegOctetOf(s[5]));
      assert s[..6] == primary + [s[5]];
      BitStringAppend(primary, [s[5]]);
    } else {
      assert TcPrimaryBits(u.p, u.frameLen, u.seqNum) + [] == TcPrimaryBits(u.p, u.frameLen, u.seqNum);
    }
  }

  /** The sequence flags: 01 in the first segment of a unit, 00 in one that continues it, 10 in the last,
      and 11 in a unit of one segment. */
  function FlagValue(flag: SeqFlag): nat {
    match flag case First => 1 case Cont => 0 case Last => 2 case Unseg => 3
  }

  lemma FlagNumber(flag: SeqFlag)
    ensures TC.FlagBits(flag) as int == FlagValue(flag)
  {
  }

  /** A frame of COP-1 on the wire. */
  lemma CopFrameIsLaidOut(cfg: TC.Config, vcid: bv8, frame: Frame)
    ensures var s := TC.Wire(cfg, vcid, frame);
            var n := if cfg.hasSeg then 6 else 5;
            && n + |frame.data| <= |s| && s[n..n + |frame.data|] == frame.data
            && BitString(s[..n]) ==
                 Digits(cfg.version as int, 2) + [frame.hdr.typeB] + [frame.hdr.command] + [false, false]
                 + Digits(cfg.scid as int, 10) + Digits(vcid as int, 6) + Digits(|s| - 1, 10)
                 + Digits(if frame.hdr.typeB then 0 else frame.ns, 8)
                 + (if cfg.hasSeg then Digits(FlagValue(frame.hdr.seg.flag), 2) + Digits(frame.hdr.seg.mapId as int, 6)
                    else [])
  {
    hide BitString, TC.Packed, FlagValue, TC.FlagBits, Digits;
    var p := TC.PrimaryFor(cfg, vcid, frame.hdr);
    var seg := TC.SegOctet(TC.FlagBits(frame.hdr.seg.flag), frame.hdr.seg.mapId);
    TcFrameIsLaidOut(cfg, p, frame.ns as byte, seg, frame.data);
    FlagNumber(frame.hdr.seg.flag);
    OctetValue(frame.ns);
    TruthDigit(frame.hdr.typeB);
    TruthDigit(frame.hdr.command);
    NoDigits();
  }

  lemma TruthDigit(b: bool)
    ensures Digits(if b then 1 else 0, 1) == [b]
  {
    assert Digits(0, 1) == Digits(0, 0) + [false] && Digits(1, 1) == Digits(0, 0) + [true];
  }

  lemma NoDigits()
    ensures Digits(0, 2) == [false, false]
  {
    assert Digits(0, 2) == Digits(0, 1) + [false] && Digits(0, 1) == Digits(0, 0) + [false];
  }

  // ---------------------------------------------------------------------------------------
  // TM frames
  // ---------------------------------------------------------------------------------------

  /** The bits of a TM primary header behind the version number: 10 of spacecraft, 3 of virtual channel, the
      flag for the control field, 8 and 8 of the two frame counts, four flags and fields of 1, 1, 1 and 2
      bits, and 11 of first header pointer. */
  function TmFieldBits(p: TM.Primary, pointer: nat): (bits: seq<bool>)
    ensures |bits| == 46
  {
    Digits(p.scid as int, 10) + Digits(p.vcid as int, 3) + Digits(p.ocf as int, 1) + Digits(p.mc as int, 8)
    + Digits(p.vc as int, 8)
    + (Digits(p.secHdr as int, 1) + Digits(p.sync as int, 1) + Digits(p.pktOrder as int, 1)
       + Digits(p.segLenId as int, 2))
    + Digits(pointer, 11)
  }

  lemma TmOctet0Bits(p: TM.Primary)
    ensures var hi, lo := High(p.scid), Low(p.scid);
            Bits(TM.Octet0(p)) == Field(p.version, 2) + Field(hi, 2)
                                  + [lo & 0x80 != 0, lo & 0x40 != 0, lo & 0x20 != 0, lo & 0x10 != 0]
  {
    hide Bits, High, Low, TM.Octet0, Field;
    TmOctet0Bitwise(p);
    SmallFields(p.version);
    SmallFields(High(p.scid));
    var v, hi, lo := p.version, High(p.scid), Low(p.scid);
    EightMore(v & 2 != 0, v & 1 != 0, hi & 2 != 0, hi & 1 != 0, lo & 0x80 != 0, lo & 0x40 != 0, lo & 0x20 != 0,
              lo & 0x10 != 0);
  }

  lemma TmOctet0Bitwise(p: TM.Primary)
    ensures var v, hi, lo := p.version, High(p.scid), Low(p.scid);
            Bits(TM.Octet0(p)) == [v & 2 != 0, v & 1 != 0, hi & 2 != 0, hi & 1 != 0, lo & 0x80 != 0, lo & 0x40 != 0,
                                   lo & 0x20 != 0, lo & 0x10 != 0]
  {
  }

  lemma TmOctet1Bits(p: TM.Primary)
    ensures var lo := Low(p.scid);
            Bits(TM.Octet1(p)) == [lo & 8 != 0, lo & 4 != 0, lo & 2 != 0, lo & 1 != 0] + Field(p.vcid, 3)
                                  + Field(p.ocf, 1)
  {
    hide Bits, Low, TM.Octet1, Field;
    TmOctet1Bitwise(p);
    SmallFields(p.vcid);
    SmallFields(p.ocf);
  }

  lemma TmOctet1Bitwise(p: TM.Primary)
    ensures var lo, v := Low(p.scid), p.vcid;
            Bits(TM.Octet1(p)) == [lo & 8 != 0, lo & 4 != 0, lo & 2 != 0, lo & 1 != 0, v & 4 != 0, v & 2 != 0,
                                   v & 1 != 0, p.ocf & 1 != 0]
  {
  }

  lemma TmOctet4Bits(p: TM.Primary, pointerBits: bv8)
    ensures Bits(TM.Octet4(p, pointerBits)) == Field(p.secHdr, 1) + Field(p.sync, 1) + Field(p.pktOrder, 1)
                                               + Field(p.segLenId, 2) + Field(pointerBits, 3)
  {
    hide Bits, TM.Octet4, Field;
    TmOctet4Bitwise(p, pointerBits);
    SmallFields(p.secHdr);
    SmallFields(p.sync);
    SmallFields(p.pktOrder);
    SmallFields(p.segLenId);
    SmallFields(pointerBits);
    var g, b := p.segLenId, pointerBits;
    EightMore(p.secHdr & 1 != 0, p.sync & 1 != 0, p.pktOrder & 1 != 0, g & 2 != 0, g & 1 != 0, b & 4 != 0, b & 2 != 0,
              b & 1 != 0);
  }

  lemma TmOctet4Bitwise(p: TM.Primary, b: bv8)
    ensures var g := p.segLenId;
            Bits(TM.Octet4(p, b)) == [p.secHdr & 1 != 0, p.sync & 1 != 0, p.pktOrder & 1 != 0, g & 2 != 0, g & 1 != 0,
                                      b & 4 != 0, b & 2 != 0, b & 1 != 0]
  {
  }

  lemma EightMore(a: bool, b: bool, c: bool, d: bool, e: bool, f: bool, g: bool, h: bool)
    ensures [a] + [b] + [c] + [d, e] + [f, g, h] == [a, b, c, d, e, f, g, h]
    ensures [a, b] + [c, d] + [e, f, g, h] == [a, b, c, d, e, f, g, h]
  {
  }

  lemma PointerDigits(n: nat)
    ensures Digits(n, 11) == Field(TM.PointerBits(n), 3) + Bits(LowOctet(n))
  {
    hide Bits;
    OctetValue(n / 256 % 8);
    OctetValue(n % 256);
    LastDigits(n / 256);
    DigitsOfTwoOctets(n / 256, n % 256, 3);
    FieldIsNumber(TM.PointerBits(n), 3);
    BitsAreDigits(LowOctet(n));
  }

  lemma FourAndFour(lo: byte)
    ensures [lo & 0x80 != 0, lo & 0x40 != 0, lo & 0x20 != 0, lo & 0x10 != 0]
            + [lo & 8 != 0, lo & 4 != 0, lo & 2 != 0, lo & 1 != 0] == Bits(lo)
  {
  }

  lemma AcrossTmOctets<T>(v: seq<T>, sh: seq<T>, s1: seq<T>, s2: seq<T>, sl: seq<T>, vc: seq<T>, o: seq<T>, m: seq<T>,
                          n: seq<T>, flags: seq<T>, ph: seq<T>, pl: seq<T>)
    requires s1 + s2 == sl
    ensures (v + sh + s1) + (s2 + vc + o) + m + n + (flags + ph) + pl
         == v + ((sh + sl) + vc + o + m + n + flags + (ph + pl))
  {
    assert (v + sh + s1) + (s2 + vc + o) == v + ((sh + (s1 + s2)) + vc + o);
    var x := (sh + sl) + vc + o;
    assert (v + x) + m + n == v + (x + m + n);
    var y := x + m + n;
    assert (v + y) + (flags + ph) + pl == v + (y + flags + (ph + pl));
  }

  lemma SixOctets(a: byte, b: byte, c: byte, d: byte, e: byte, f: byte)
    ensures BitString([a, b, c, d, e, f]) == Bits(a) + Bits(b) + Bits(c) + Bits(d) + Bits(e) + Bits(f)
  {
    hide Bits;
    assert [a, b, c, d, e, f] == [a, b, c, d, e] + [f];
    FiveOctets(a, b, c, d, e);
    OneOctet(f);
    BitStringAppend([a, b, c, d, e], [f]);
  }

  /** The six octets of a TM primary header. */
  lemma TmPrimaryBits(p: TM.Primary, o4: byte, o5: byte, pointerBits: byte, pointer: nat)
    requires o4 == TM.Octet4(p, pointerBits) && Digits(pointer, 11) == Field(pointerBits, 3) + Bits(o5)
    ensures BitString([TM.Octet0(p), TM.Octet1(p), p.mc, p.vc, o4, o5])
         == Digits(p.version as int, 2) + TmFieldBits(p, pointer)
  {
    hide Bits, Field, Digits, TM.Octet0, TM.Octet1, TM.Octet4, High, Low;
    SixOctets(TM.Octet0(p), TM.Octet1(p), p.mc, p.vc, o4, o5);
    TmOctet0Bits(p);
    TmOctet1Bits(p);
    TmOctet4Bits(p, pointerBits);
    TenDigits(p.scid);
    TmNumbers(p);
    var lo := Low(p.scid);
    FourAndFour(lo);
    AcrossTmOctets(Field(p.version, 2), Field(High(p.scid), 2),
                   [lo & 0x80 != 0, lo & 0x40 != 0, lo & 0x20 != 0, lo & 0x10 != 0],
                   [lo & 8 != 0, lo & 4 != 0, lo & 2 != 0, lo & 1 != 0], Bits(lo), Field(p.vcid, 3), Field(p.ocf, 1),
                   Bits(p.mc), Bits(p.vc),
                   Field(p.secHdr, 1) + Field(p.sync, 1) + Field(p.pktOrder, 1) + Field(p.segLenId, 2),
                   Field(pointerBits, 3), Bits(o5));
  }

  lemma TmNumbers(p: TM.Primary)
    ensures Field(p.version, 2) == Digits(p.version as int, 2) && Field(p.vcid, 3) == Digits(p.vcid as int, 3)
    ensures Field(p.ocf, 1) == Digits(p.ocf as int, 1) && Bits(p.mc) == Digits(p.mc as int, 8)
    ensures Bits(p.vc) == Digits(p.vc as int, 8) && Field(p.secHdr, 1) == Digits(p.secHdr as int, 1)
    ensures Field(p.sync, 1) == Digits(p.sync as int, 1) && Field(p.pktOrder, 1) == Digits(p.pktOrder as int, 1)
    ensures Field(p.segLenId, 2) == Digits(p.segLenId as int, 2)
  {
    hide Field, Digits, Bits;
    FieldIsNumber(p.version, 2);
    FieldIsNumber(p.vcid, 3);
    FieldIsNumber(p.ocf, 1);
    FieldIsNumber(p.secHdr, 1);
    FieldIsNumber(p.sync, 1);
    FieldIsNumber(p.pktOrder, 1);
    FieldIsNumber(p.segLenId, 2);
    BitsAreDigits(p.mc);
    BitsAreDigits(p.vc);
  }

  /** The secondary header, if there is one: 2 bits of version, 6 bits of length, and its octets. */
  function TmSecondaryBits(p: TM.Primary, sec: TM.Secondary): seq<bool> {
    if p.secHdr == 1 then Digits(sec.version as int, 2) + Digits(|sec.data|, 6) + BitString(sec.data) else []
  }

  lemma SecondaryBits(p: TM.Primary, sec: TM.Secondary)
    requires |sec.data| < 64
    ensures BitString(TM.SecondaryOctets(p, sec)) == TmSecondaryBits(p, sec)
  {
    hide Bits, Field, Digits, TM.Octet6;
    if p.secHdr == 1 {
      var o := TM.Octet6(sec.version, |sec.data|);
      OctetValue(|sec.data|);
      Octet6Bits(sec.version, |sec.data|);
      FieldIsNumber(sec.version, 2);
      FieldIsNumber(|sec.data| as bv8, 6);
      OneOctet(o);
      BitStringAppend([o], sec.data);
    }
  }

  lemma Octet6Bits(version: bv8, length: nat)
    requires length < 64
    ensures Bits(TM.Octet6(version, length)) == Field(version, 2) + Field(length as bv8, 6)
  {
    var o := TC.SegOctet(version, length as bv8);
    assert TM.Octet6(version, length) == TC.Octet5(o);
    hide Bits, Field, TC.Octet5;
    Octet5Bits(o);
  }

  /** A packed TM frame: the version number and the fields of the primary header, the secondary header, the
      data field, and the operational control field if its flag is set. */
  lemma TmFrameIsLaidOut(m: TM.Mission, p: TM.Primary, sec: TM.Secondary, ocf: seq<byte>, fdu: TmTypes.Fdu)
    requires TM.Laid(m, p, sec, ocf) && |fdu.data| == m.maxData
    ensures var s := TM.Packed(m, p, sec, ocf, fdu);
            var (n, e) := (m.headerLen, m.headerLen + m.maxData);
            && n <= e <= |s| == m.frameLen
            && BitString(s[..n])
               == Digits(p.version as int, 2) + TmFieldBits(p, fdu.pointer) + TmSecondaryBits(p, sec)
            && s[n..e] == fdu.data && (p.ocf == 1 ==> e + 4 <= |s| && s[e..e + 4] == ocf)
  {
    hide Bits, Field, Digits, BitString, TM.Octet0, TM.Octet1, TM.Octet4, TM.SecondaryOctets, TmFieldBits,
         TmSecondaryBits, Checksum, High, Low;
    var s := TM.Packed(m, p, sec, ocf, fdu);
    TM.BodyOf(m, p, sec, ocf, fdu);
    var body := TM.BodyOctets(m, p, sec, ocf, fdu);
    assert body <= s;
    assert p.ocf == 1 ==> body[m.headerLen + m.maxData..] == ocf;
    PointerDigits(fdu.pointer);
    var o4, o5 := TM.Octet4(p, TM.PointerBits(fdu.pointer)), LowOctet(fdu.pointer);
    TmPrimaryBits(p, o4, o5, TM.PointerBits(fdu.pointer), fdu.pointer);
    SecondaryBits(p, sec);
    BitStringAppend([TM.Octet0(p), TM.Octet1(p), p.mc, p.vc, o4, o5], TM.SecondaryOctets(p, sec));
  }

  /** The first octets with the two bits of the version number put right. */
  lemma OctetsOfTmFields(o0: byte, o1: byte, o2: byte, o3: byte, o4: byte)
    ensures var p := TM.PrimaryOf(o0, o1, o2, o3, o4).(version := o0 >> 6);
            && TM.Fits(p) && TM.Octet0(p) == o0 && TM.Octet1(p) == o1 && p.mc == o2 && p.vc == o3
            && TM.Octet4(p, o4 & 0x07) == o4
  {
  }

  lemma LastThreeBits(o4: byte)
    ensures ((o4 & 0x07) as int) < 8
  {
  }

  lemma PointerFieldDigits(o4: byte, o5: byte)
    ensures var n := TM.PointerField(o4, o5);
            n < 2048 && Digits(n, 11) == Field(o4 & 0x07, 3) + Bits(o5)
  {
    hide Bits, Digits;
    LastThreeBits(o4);
    ValueBound(o5);
    UpperAndLower(o4 & 0x07, o5, 3);
  }

  /** Whatever the octets received, unpacking finds these very bits in the fields, except that it makes of
      the version number whether it is zero. */
  lemma TmFrameIsReadSo(m: TM.Mission, s: seq<byte>)
    requires 6 <= m.headerLen && m.headerLen + m.maxData <= |s|
    ensures var p := TM.PrimaryOf(s[0], s[1], s[2], s[3], s[4]);
            var pointer := TM.FduOf(m, s).pointer;
            var bits := BitString(s[..6]);
            && TM.Fits(p) && pointer < 2048 && |bits| == 48
            && bits[2..] == TmFieldBits(p, pointer)
            && p.version == (if bits[..2] == [false, false] then 0 else 1)
            && TM.FduOf(m, s).data == s[m.headerLen..m.headerLen + m.maxData]
  {
    hide Bits, Field, Digits, BitString, TM.Octet0, TM.Octet1, TM.Octet4, TM.PrimaryOf, TM.PointerField;
    var q := TM.PrimaryOf(s[0], s[1], s[2], s[3], s[4]);
    var p := q.(version := s[0] >> 6);
    OctetsOfTmFields(s[0], s[1], s[2], s[3], s[4]);
    PointerFieldDigits(s[4], s[5]);
    var pointer := TM.PointerField(s[4], s[5]);
    TmPrimaryBits(p, s[4], s[5], s[4] & 0x07, pointer);
    assert s[..6] == [s[0], s[1], s[2], s[3], s[4], s[5]];
    var bits := BitString(s[..6]);
    assert bits[2..] == TmFieldBits(p, pointer) == TmFieldBits(q, pointer);
    assert bits[..2] == Digits(p.version as int, 2);
    VersionRead(s[0], s[1], s[2], s[3], s[4]);
    FieldIsNumber(p.version, 2);
    SmallFields(p.version);
  }

  lemma VersionRead(o0: byte, o1: byte, o2: byte, o3: byte, o4: byte)
    ensures var v := o0 >> 6;
            && TM.PrimaryOf(o0, o1, o2, o3, o4).version == (if v & 2 == 0 && v & 1 == 0 then 0 else 1)
            && TM.Fits(TM.PrimaryOf(o0, o1, o2, o3, o4))
  {
  }
}
