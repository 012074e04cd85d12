/** TC transfer frames as octets (src/osdlp_tc.c:90-182): packing, unpacking and the frame
    validation check. */
module TcFrame {
  import opened Octets
  import opened CopTypes
  import opened Crc

  /** The mission parameters packing depends on. */
  datatype Config = Config(version: bv8, scid: bv16, hasCrc: bool, hasSeg: bool)

  /** The primary header but for the frame length and the sequence number. */
  datatype Primary = Primary(version: bv8, bypass: bv8, ctrl: bv8, spare: bv8, scid: bv16, vcid: bv8)

  datatype SegOctet = SegOctet(flag: bv8, mapId: bv8)

  /** Every field fits its bits. */
  predicate Fits(p: Primary) {
    p.version < 4 && p.bypass < 2 && p.ctrl < 2 && p.spare < 4 && p.scid < 1024 && p.vcid < 64
  }

  predicate SegFits(s: SegOctet) {
    s.flag < 4 && s.mapId < 64
  }

  function HeaderLen(cfg: Config): nat {
    if cfg.hasSeg then 6 else 5
  }

  function Overhead(cfg: Config): nat {
    HeaderLen(cfg) + if cfg.hasCrc then 2 else 0
  }

  // ---------------------------------------------------------------------------------------
  // The octets of the header
  // ---------------------------------------------------------------------------------------

  function Octet0(p: Primary): byte {
    ((p.version & 0x03) << 6) | ((p.bypass & 0x01) << 5) | ((p.ctrl & 0x01) << 4) | ((p.spare & 0x03) << 2)
    | (((p.scid >> 8) & 0x03) as byte)
  }

  function Octet1(p: Primary): byte {
    (p.scid & 0xff) as byte
  }

  function Octet2(vcid: bv8, lengthBits: bv8): byte {
    ((vcid & 0x3f) << 2) | (lengthBits & 0x03)
  }

  function Octet5(s: SegOctet): byte {
    ((s.flag & 0x03) << 6) | (s.mapId & 0x3f)
  }

  function PrimaryOf(o0: byte, o1: byte, o2: byte): Primary {
    Primary((o0 >> 6) & 0x03, (o0 >> 5) & 0x01, (o0 >> 4) & 0x01, (o0 >> 2) & 0x03,
            (((o0 & 0x03) as bv16) << 8) | (o1 as bv16), (o2 >> 2) & 0x3f)
  }

  function SegOctetOf(o5: byte): SegOctet {
    SegOctet((o5 >> 6) & 0x03, o5 & 0x3f)
  }

  /** The ten-bit frame length field. */
  function LengthField(o2: byte, o3: byte): nat {
    256 * ((o2 & 0x03) as int) + (o3 as int)
  }

  function LengthBits(n: nat): bv8 {
    (n / 256 % 4) as bv8
  }

  lemma PrimaryRoundTrip(p: Primary, lengthBits: bv8)
    requires Fits(p)
    ensures PrimaryOf(Octet0(p), Octet1(p), Octet2(p.vcid, lengthBits)) == p
  {
  }

  lemma SegRoundTrip(s: SegOctet)
    requires SegFits(s)
    ensures SegOctetOf(Octet5(s)) == s
  {
  }

  lemma LengthBitsSurvive(vcid: bv8, lengthBits: bv8)
    requires lengthBits < 4
    ensures Octet2(vcid, lengthBits) & 0x03 == lengthBits
  {
  }

  lemma SmallOctet(n: nat)
    requires n < 4
    ensures (n as bv8) < 4
  {
    OctetValue(n);
    BelowFour(n as bv8);
  }

  lemma BelowFour(b: bv8)
    requires (b as int) < 4
    ensures b < 4
  {
  }

  lemma LastTenBits(n: nat)
    ensures 256 * (n / 256 % 4) + n % 256 == n % 1024
  {
  }

  /** The length field holds the length modulo 1024. */
  lemma LengthRoundTrip(vcid: bv8, n: nat)
    ensures LengthField(Octet2(vcid, LengthBits(n)), LowOctet(n)) == n % 1024
  {
    hide Octet2;
    LastTenBits(n);
    var q, r := n / 256 % 4, n % 256;
    SmallOctet(q);
    LengthBitsSurvive(vcid, LengthBits(n));
    OctetValue(q);
    OctetValue(r);
    assert LengthBits(n) as int == q && LowOctet(n) as int == r;
  }

  // ---------------------------------------------------------------------------------------
  // Packing
  // ---------------------------------------------------------------------------------------

  /** The header of a frame of `total` octets; type-B frames carry no sequence number. */
  function HeaderOctets(cfg: Config, p: Primary, vs: byte, seg: SegOctet, total: nat): (s: seq<byte>)
    requires total > 0
    ensures |s| == HeaderLen(cfg)
  {
    [Octet0(p), Octet1(p), Octet2(p.vcid, LengthBits(total - 1)), LowOctet(total - 1), if p.bypass == 0 then vs else 0]
    + if cfg.hasSeg then [Octet5(seg)] else []
  }

  /** A frame without its frame error control field. */
  function Body(cfg: Config, p: Primary, vs: byte, seg: SegOctet, data: seq<byte>): (s: seq<byte>)
    ensures |s| == HeaderLen(cfg) + |data|
  {
    HeaderOctets(cfg, p, vs, seg, Overhead(cfg) + |data|) + data
  }

  function Sealed(cfg: Config, body: seq<byte>): seq<byte> {
    if cfg.hasCrc then Seal(body) else body
  }

  function Packed(cfg: Config, p: Primary, vs: byte, seg: SegOctet, data: seq<byte>): (s: seq<byte>)
    ensures |s| == Overhead(cfg) + |data|
  {
    Sealed(cfg, Body(cfg, p, vs, seg, data))
  }

  method PackHeader(cfg: Config, p: Primary, vs: byte, seg: SegOctet, out: array<byte>, packetLen: nat)
    requires HeaderLen(cfg) <= out.Length
    modifies out
    ensures out[..HeaderLen(cfg)] == HeaderOctets(cfg, p, vs, seg, packetLen + 1)
    ensures out[HeaderLen(cfg)..] == old(out[HeaderLen(cfg)..])
  {
    hide Octet0, Octet1, Octet2, Octet5, LengthBits, LowOctet;
    out[0], out[1], out[2], out[3] := Octet0(p), Octet1(p), Octet2(p.vcid, LengthBits(packetLen)), LowOctet(packetLen);
    if p.bypass == 0 {
      out[4] := vs;
    } else {
      out[4] := 0;
    }
    if cfg.hasSeg {
      out[5] := Octet5(seg);
    }
  }

  /** `osdlp_tc_pack` writes the frame at the front of the output buffer and nothing else. */
  method Pack(cfg: Config, p: Primary, vs: byte, seg: SegOctet, out: array<byte>, data: seq<byte>)
    requires Overhead(cfg) + |data| <= out.Length
    modifies out
    ensures out[..Overhead(cfg) + |data|] == Packed(cfg, p, vs, seg, data)
    ensures out[Overhead(cfg) + |data|..] == old(out[Overhead(cfg) + |data|..])
  {
    hide HeaderOctets, Seal;
    var packetLen := Overhead(cfg) + |data| - 1;
    var from := if cfg.hasSeg then 6 else 5;
    PackHeader(cfg, p, vs, seg, out, packetLen);
    ghost var rest := out[from..];
    CopyTo(out, from, data);
    assert out[..from + |data|] == Body(cfg, p, vs, seg, data);
    assert out[from + |data|..] == rest[|data|..];
    if cfg.hasCrc {
      var _ := SealInPlace(out, packetLen - 1);
      assert out[packetLen + 1..] == rest[|data|..][2..];
    }
  }

  // ---------------------------------------------------------------------------------------
  // Unpacking
  // ---------------------------------------------------------------------------------------

  /** What unpacking leaves in the frame structure; the data stays where it is in the buffer. */
  datatype Unpacked = Unpacked(p: Primary, frameLen: nat, seqNum: byte, seg: Option<SegOctet>, dataFrom: nat,
                               dataLen: nat, crc: Option<bv16>)

  /** The buffer holds the octets that unpacking reads. */
  predicate Readable(cfg: Config, s: seq<byte>) {
    && |s| >= HeaderLen(cfg)
    && LengthField(s[2], s[3]) < |s|
    && (cfg.hasCrc ==> LengthField(s[2], s[3]) >= 1)
  }

  /** The data length is computed in sixteen bits. */
  function Unpacking(cfg: Config, s: seq<byte>): Unpacked
    requires Readable(cfg, s)
  {
    var n := LengthField(s[2], s[3]);
    Unpacked(PrimaryOf(s[0], s[1], s[2]), n, s[4],
             if cfg.hasSeg then Some(SegOctetOf(s[5])) else None,
             HeaderLen(cfg), (n + 1 - Overhead(cfg)) % 65536,
             if cfg.hasCrc then Some(Word(s[n - 1], s[n])) else None)
  }

  method Unpack(cfg: Config, pkt: array<byte>) returns (u: Unpacked)
    requires Readable(cfg, pkt[..])
    ensures u == Unpacking(cfg, pkt[..])
  {
    var n := LengthField(pkt[2], pkt[3]);
    var seg, from := None, 5;
    if cfg.hasSeg {
      seg, from := Some(SegOctetOf(pkt[5])), 6;
    }
    var crc := None;
    if cfg.hasCrc {
      crc := Some(Word(pkt[n - 1], pkt[n]));
    }
    u := Unpacked(PrimaryOf(pkt[0], pkt[1], pkt[2]), n, pkt[4], seg, from, (n + 1 - Overhead(cfg)) % 65536, crc);
  }

  /** A received frame is one of this mission's and its check value agrees with its content. */
  predicate Validates(cfg: Config, s: seq<byte>)
    requires Readable(cfg, s)
  {
    var u := Unpacking(cfg, s);
    && u.p.version == cfg.version
    && u.p.scid == cfg.scid
    && (cfg.hasCrc ==> CheckPasses(s[..u.frameLen + 1]))
  }

  method FrameValidationCheck(cfg: Config, u: Unpacked, rx: array<byte>) returns (ok: bool)
    requires Readable(cfg, rx[..]) && u == Unpacking(cfg, rx[..])
    ensures ok <==> Validates(cfg, rx[..])
  {
    hide PrimaryOf, SegOctetOf, LengthField, Checksum, Word;
    if cfg.version != u.p.version {
      return false;
    }
    if cfg.scid != u.p.scid {
      return false;
    }
    if cfg.hasCrc {
      var crc := CalcCrc(rx, u.frameLen - 1);
      assert rx[..u.frameLen - 1] == rx[..][..u.frameLen + 1][..u.frameLen - 1];
      if crc != Word(rx[u.frameLen - 1], rx[u.frameLen]) {
        return false;
      }
    }
    ok := true;
  }

  // ---------------------------------------------------------------------------------------
  // Round trip
  // ---------------------------------------------------------------------------------------

  lemma HeaderReads(cfg: Config, p: Primary, vs: byte, seg: SegOctet, total: nat)
    requires Fits(p) && SegFits(seg) && total > 0
    ensures var h := HeaderOctets(cfg, p, vs, seg, total);
            && PrimaryOf(h[0], h[1], h[2]) == p && LengthField(h[2], h[3]) == (total - 1) % 1024
            && h[4] == (if p.bypass == 0 then vs else 0)
            && (cfg.hasSeg ==> SegOctetOf(h[5]) == seg)
  {
    hide Octet0, Octet1, Octet2, Octet5, LengthBits, LowOctet, PrimaryOf, SegOctetOf, LengthField, Fits, SegFits;
    PrimaryRoundTrip(p, LengthBits(total - 1));
    SegRoundTrip(seg);
    LengthRoundTrip(p.vcid, total - 1);
  }

  lemma HeaderAndDataLie(cfg: Config, p: Primary, vs: byte, seg: SegOctet, data: seq<byte>, tail: seq<byte>)
    ensures var s := Packed(cfg, p, vs, seg, data) + tail;
            var n := HeaderLen(cfg);
            |s| >= n + |data| && s[..n] == HeaderOctets(cfg, p, vs, seg, Overhead(cfg) + |data|)
                && s[n..n + |data|] == data
  {
    hide HeaderOctets, Checksum, High, Low;
    var body := Body(cfg, p, vs, seg, data);
    var s := Packed(cfg, p, vs, seg, data) + tail;
    assert s[..|body|] == body;
    assert s[..HeaderLen(cfg)] == body[..HeaderLen(cfg)];
    assert s[HeaderLen(cfg)..|body|] == body[HeaderLen(cfg)..];
  }

  lemma PackedIsReadable(cfg: Config, p: Primary, vs: byte, seg: SegOctet, data: seq<byte>, tail: seq<byte>)
    requires Fits(p) && SegFits(seg)
    ensures var s := Packed(cfg, p, vs, seg, data) + tail;
            var total := Overhead(cfg) + |data|;
            && |s| >= HeaderLen(cfg)
            && PrimaryOf(s[0], s[1], s[2]) == p && LengthField(s[2], s[3]) == (total - 1) % 1024
            && s[4] == (if p.bypass == 0 then vs else 0)
            && (cfg.hasSeg ==> SegOctetOf(s[5]) == seg)
            && s[HeaderLen(cfg)..HeaderLen(cfg) + |data|] == data
  {
    hide PrimaryOf, SegOctetOf, LengthField, Fits, SegFits, HeaderOctets, Packed;
    var h := HeaderOctets(cfg, p, vs, seg, Overhead(cfg) + |data|);
    var s := Packed(cfg, p, vs, seg, data) + tail;
    HeaderReads(cfg, p, vs, seg, Overhead(cfg) + |data|);
    HeaderAndDataLie(cfg, p, vs, seg, data, tail);
    assert forall i :: 0 <= i < HeaderLen(cfg) ==> s[i] == s[..HeaderLen(cfg)][i] == h[i];
  }

  /** Unpacking a packed frame of at most 1024 octets gives back every header field and the data,
      and the frame passes the validation check. */
  lemma RoundTrip(cfg: Config, p: Primary, vs: byte, seg: SegOctet, data: seq<byte>, tail: seq<byte>)
    requires Fits(p) && SegFits(seg) && p.version == cfg.version && p.scid == cfg.scid
    requires Overhead(cfg) + |data| <= 1024
    ensures var s := Packed(cfg, p, vs, seg, data) + tail;
            && Readable(cfg, s) && Validates(cfg, s)
            && var u := Unpacking(cfg, s);
            && u.p == p && u.frameLen + 1 == Overhead(cfg) + |data| && u.seqNum == (if p.bypass == 0 then vs else 0)
            && u.seg == (if cfg.hasSeg then Some(seg) else None)
            && u.dataLen == |data| && s[u.dataFrom..u.dataFrom + u.dataLen] == data
  {
    hide PrimaryOf, SegOctetOf, LengthField, Checksum, Word, High, Low, Fits, SegFits, Body, CheckPasses;
    PackedIsReadable(cfg, p, vs, seg, data, tail);
    var packed := Packed(cfg, p, vs, seg, data);
    var s := packed + tail;
    assert s[..Overhead(cfg) + |data|] == packed;
    if cfg.hasCrc {
      SealPasses(Body(cfg, p, vs, seg, data));
    }
  }

  /** Beyond 1024 octets the ten bits of the length field are not enough: the length comes back
      right exactly when the frame is no longer than that. */
  lemma LengthSurvivesExactly(cfg: Config, p: Primary, vs: byte, seg: SegOctet, data: seq<byte>)
    requires Fits(p) && SegFits(seg) && Overhead(cfg) + |data| <= 65536
    requires Readable(cfg, Packed(cfg, p, vs, seg, data))
    ensures Unpacking(cfg, Packed(cfg, p, vs, seg, data)).dataLen == |data| <==> Overhead(cfg) + |data| <= 1024
  {
    hide PrimaryOf, SegOctetOf, LengthField, Word, Fits, SegFits, Packed;
    PackedIsReadable(cfg, p, vs, seg, data, []);
    assert Packed(cfg, p, vs, seg, data) + [] == Packed(cfg, p, vs, seg, data);
  }

  lemma SameLength(f: seq<byte>, g: seq<byte>, k: nat, width: nat)
    requires DifferInBurst(f, g, k, width)
    ensures |f| == |g|
  {
  }

  /** A burst of up to sixteen bits anywhere outside the length field makes the validation check
      fail, however long the frame is. */
  lemma CorruptionIsRejected(cfg: Config, p: Primary, vs: byte, seg: SegOctet, data: seq<byte>,
                             received: seq<byte>, k: nat, width: nat)
    requires Fits(p) && SegFits(seg) && cfg.hasCrc && Overhead(cfg) + |data| <= 1024
    requires var s := Packed(cfg, p, vs, seg, data);
             && DifferInBurst(s, received, k, width) && width <= 16 && s != received
             && LengthField(s[2], s[3]) == LengthField(received[2], received[3])
    ensures Readable(cfg, received) && !Validates(cfg, received)
  {
    hide PrimaryOf, SegOctetOf, LengthField, Checksum, Word, High, Low, Fits, SegFits, Body, CheckPasses, DifferInBurst;
    var s := Packed(cfg, p, vs, seg, data);
    PackedIsReadable(cfg, p, vs, seg, data, []);
    assert s + [] == s && |received|
        == |s| by { assert DifferInBurst(s, received, k, width); SameLength(s, received, k, width); }
    SealPasses(Body(cfg, p, vs, seg, data));
    BurstIsDetected(s, received, k, width);
    assert received[..|s|] == received;
  }

  // ---------------------------------------------------------------------------------------
  // The frames of COP-1 on the wire
  // ---------------------------------------------------------------------------------------

  function FlagBits(flag: SeqFlag): bv8 {
    match flag case Cont => 0 case First => 1 case Last => 2 case Unseg => 3
  }

  function FlagOf(bits: bv8): SeqFlag {
    if bits == 0 then Cont else if bits == 1 then First else if bits == 2 then Last else Unseg
  }

  function PrimaryFor(cfg: Config, vcid: bv8, hdr: Header): Primary {
    Primary(cfg.version, if hdr.typeB then 1 else 0, if hdr.command then 1 else 0, 0, cfg.scid, vcid)
  }

  function Wire(cfg: Config, vcid: bv8, frame: Frame): seq<byte> {
    Packed(cfg, PrimaryFor(cfg, vcid, frame.hdr), frame.ns as byte,
           SegOctet(FlagBits(frame.hdr.seg.flag), frame.hdr.seg.mapId), frame.data)
  }

  /** The data the length field announces lies within the buffer: the frame is not shorter than its
      own headers. */
  predicate Complete(cfg: Config, s: seq<byte>) {
    Readable(cfg, s) && LengthField(s[2], s[3]) + 1 >= Overhead(cfg)
  }

  /** What the receiver sees of the octets. Without a segment header the segment fields are left
      over from whatever the frame structure held before. */
  function FrameFrom(cfg: Config, s: seq<byte>, stale: SegHeader): Frame
    requires Complete(cfg, s)
  {
    var u := Unpacking(cfg, s);
    var seg := match u.seg case Some(o) => SegHeader(FlagOf(o.flag), o.mapId) case None => stale;
    Frame(Header(u.p.bypass == 1, u.p.ctrl == 1, seg), u.seqNum as int, s[u.dataFrom..u.dataFrom + u.dataLen])
  }

  predicate Mission(cfg: Config, vcid: bv8) {
    cfg.version < 4 && cfg.scid < 1024 && vcid < 64
  }

  /** The frames the sender produces: the MAP identifier fits, type-B frames are not numbered, and
      the whole is no longer than the length field can say. */
  predicate Sendable(cfg: Config, frame: Frame) {
    && frame.hdr.seg.mapId < 64
    && (frame.hdr.typeB ==> frame.ns == 0)
    && Overhead(cfg) + |frame.data| <= 1024
  }

  /** COP-1 may be thought of as exchanging frames: the octets sent for a frame pass the receiver's
      check and are taken for that very frame. */
  lemma WireRoundTrip(cfg: Config, vcid: bv8, frame: Frame, tail: seq<byte>, stale: SegHeader)
    requires Mission(cfg, vcid) && Sendable(cfg, frame)
    ensures var s := Wire(cfg, vcid, frame) + tail;
            && Complete(cfg, s) && Validates(cfg, s)
            && FrameFrom(cfg, s, stale) == if cfg.hasSeg then frame else frame.(hdr := frame.hdr.(seg := stale))
  {
    hide Validates, PrimaryOf, SegOctetOf, LengthField, Packed;
    OctetValue(frame.ns);
    RoundTrip(cfg, PrimaryFor(cfg, vcid, frame.hdr), frame.ns as byte,
              SegOctet(FlagBits(frame.hdr.seg.flag), frame.hdr.seg.mapId), frame.data, tail);
  }

  /** A frame corrupted on its way by a burst of up to sixteen bits outside the length field is a
      frame lost. */
  lemma CorruptedFrameIsLost(cfg: Config, vcid: bv8, frame: Frame, received: seq<byte>, k: nat, width: nat)
    requires Mission(cfg, vcid) && Sendable(cfg, frame) && cfg.hasCrc
    requires var s := Wire(cfg, vcid, frame);
             && DifferInBurst(s, received, k, width) && width <= 16 && s != received
             && LengthField(s[2], s[3]) == LengthField(received[2], received[3])
    ensures Readable(cfg, received) && !Validates(cfg, received)
  {
    hide Validates, PrimaryOf, SegOctetOf, LengthField, Packed, DifferInBurst;
    CorruptionIsRejected(cfg, PrimaryFor(cfg, vcid, frame.hdr), frame.ns as byte,
                         SegOctet(FlagBits(frame.hdr.seg.flag), frame.hdr.seg.mapId), frame.data, received, k, width);
  }

  lemma WireSays(cfg: Config, vcid: bv8, frame: Frame)
    requires Mission(cfg, vcid) && Sendable(cfg, frame)
    ensures var s := Wire(cfg, vcid, frame);
            |s| >= 5 && PrimaryOf(s[0], s[1], s[2]) == PrimaryFor(cfg, vcid, frame.hdr)
  {
    hide PrimaryOf, SegOctetOf, LengthField, Packed;
    var s := Wire(cfg, vcid, frame);
    assert s + [] == s;
    PackedIsReadable(cfg, PrimaryFor(cfg, vcid, frame.hdr), frame.ns as byte,
                     SegOctet(FlagBits(frame.hdr.seg.flag), frame.hdr.seg.mapId), frame.data, []);
  }

  lemma WireLength(cfg: Config, vcid: bv8, frame: Frame, tail: seq<byte>)
    requires Mission(cfg, vcid) && Sendable(cfg, frame)
    ensures var s := Wire(cfg, vcid, frame) + tail;
            && |s| >= 5 && |Wire(cfg, vcid, frame)| == Overhead(cfg) + |frame.data|
            && LengthField(s[2], s[3]) + 1 == |Wire(cfg, vcid, frame)|
  {
    hide PrimaryOf, SegOctetOf, LengthField, Packed;
    PackedIsReadable(cfg, PrimaryFor(cfg, vcid, frame.hdr), frame.ns as byte,
                     SegOctet(FlagBits(frame.hdr.seg.flag), frame.hdr.seg.mapId), frame.data, tail);
  }
}
