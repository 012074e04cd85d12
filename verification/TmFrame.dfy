/** TM transfer frames as octets (src/osdlp_tm.c:96-201, 748-762). */
module TmFrame {
  import opened Octets
  import opened Crc
  import opened TmTypes
  import M = TmMux

  /** The mission parameters of a frame's layout. */
  datatype Mission = Mission(headerLen: nat, maxData: nat, frameLen: nat, hasCrc: bool)

  /** The primary header without the first header pointer. */
  datatype Primary = Primary(version: bv8, scid: bv16, vcid: bv8, ocf: bv8, mc: byte, vc: byte,
                             secHdr: bv8, sync: bv8, pktOrder: bv8, segLenId: bv8)

  datatype Secondary = Secondary(version: bv8, data: seq<byte>)

  predicate Fits(p: Primary) {
    p.version < 4 && p.scid < 1024 && p.vcid < 8 && p.ocf < 2 && p.secHdr < 2 && p.sync < 2 && p.pktOrder < 2
        && p.segLenId < 4
  }

  /** The parts of a frame add up, as initialisation arranges. */
  predicate Laid(m: Mission, p: Primary, sec: Secondary, ocf: seq<byte>) {
    && |sec.data| < 64 && |ocf| == 4
    && m.headerLen == (if p.secHdr == 1 then 7 + |sec.data| else 6)
    && m.frameLen == m.headerLen + m.maxData + (if p.ocf == 1 then 4 else 0) + (if m.hasCrc then 2 else 0)
  }

  // ---------------------------------------------------------------------------------------
  // The octets of the header
  // ---------------------------------------------------------------------------------------

  function Octet0(p: Primary): byte {
    ((p.version & 0x03) << 6) | (((p.scid >> 4) & 0x3f) as byte)
  }

  function Octet1(p: Primary): byte {
    (((p.scid & 0x0f) as byte) << 4) | ((p.vcid & 0x07) << 1) | (p.ocf & 0x01)
  }

  function Octet4(p: Primary, pointerBits: bv8): byte {
    ((p.secHdr & 0x01) << 7) | ((p.sync & 0x01) << 6) | ((p.pktOrder & 0x01) << 5) | ((p.segLenId & 0x03) << 3)
    | (pointerBits & 0x07)
  }

  function Octet6(version: bv8, length: nat): byte
    requires length < 64
  {
    ((version & 0x03) << 6) | ((length as bv8) & 0x3f)
  }

  function PointerBits(pointer: nat): bv8 {
    (pointer / 256 % 8) as bv8
  }

  function PointerField(o4: byte, o5: byte): nat {
    256 * ((o4 & 0x07) as int) + (o5 as int)
  }

  /** What unpacking makes of the header octets. The version field comes out as a truth value: a
      logical "and" stands where a bitwise one was meant. */
  function PrimaryOf(o0: byte, o1: byte, o2: byte, o3: byte, o4: byte): Primary {
    Primary(if o0 >> 6 != 0 then 1 else 0,
            (((o0 & 0x3f) as bv16) << 4) | (((o1 >> 4) & 0x0f) as bv16),
            (o1 >> 1) & 0x07, o1 & 0x01, o2, o3,
            (o4 >> 7) & 0x01, (o4 >> 6) & 0x01, (o4 >> 5) & 0x01, (o4 >> 3) & 0x03)
  }

  /** Every header field survives, the version number exactly when it is below two. */
  lemma PrimaryRoundTrip(p: Primary, bits: bv8)
    requires Fits(p)
    ensures PrimaryOf(Octet0(p), Octet1(p), p.mc, p.vc, Octet4(p, bits))
        == p.(version := if p.version == 0 then 0 else 1)
    ensures PrimaryOf(Octet0(p), Octet1(p), p.mc, p.vc, Octet4(p, bits)) == p <==> p.version < 2
  {
  }

  lemma PointerBitsSurvive(p: Primary, bits: bv8)
    requires bits < 8
    ensures Octet4(p, bits) & 0x07 == bits
  {
  }

  lemma BelowEight(b: bv8)
    requires (b as int) < 8
    ensures b < 8
  {
  }

  lemma LastElevenBits(n: nat)
    ensures 256 * (n / 256 % 8) + n % 256 == n % 2048
  {
  }

  lemma PointerRoundTrip(p: Primary, pointer: nat)
    ensures PointerField(Octet4(p, PointerBits(pointer)), LowOctet(pointer)) == pointer % 2048
  {
    hide Octet4;
    LastElevenBits(pointer);
    var q, r := pointer / 256 % 8, pointer % 256;
    OctetValue(q);
    OctetValue(r);
    BelowEight(q as bv8);
    PointerBitsSurvive(p, PointerBits(pointer));
    assert PointerBits(pointer) as int == q && LowOctet(pointer) as int == r;
  }

  // ---------------------------------------------------------------------------------------
  // Packing
  // ---------------------------------------------------------------------------------------

  function SecondaryOctets(p: Primary, sec: Secondary): (s: seq<byte>)
    requires |sec.data| < 64
    ensures |s| == if p.secHdr == 1 then 1 + |sec.data| else 0
  {
    if p.secHdr == 1 then [Octet6(sec.version, |sec.data|)] + sec.data else []
  }

  function HeaderOctets(p: Primary, sec: Secondary, pointer: nat): (s: seq<byte>)
    requires |sec.data| < 64
    ensures |s| == 6 + |SecondaryOctets(p, sec)|
  {
    [Octet0(p), Octet1(p), p.mc, p.vc, Octet4(p, PointerBits(pointer)), LowOctet(pointer)] + SecondaryOctets(p, sec)
  }

  function Trailer(p: Primary, ocf: seq<byte>): seq<byte> {
    if p.ocf == 1 then ocf else []
  }

  /** A frame without its check value: header, full data field, operational control field. */
  function BodyOctets(m: Mission, p: Primary, sec: Secondary, ocf: seq<byte>, fdu: Fdu): (s: seq<byte>)
    requires Laid(m, p, sec, ocf) && |fdu.data| == m.maxData
    ensures |s| == m.frameLen - if m.hasCrc then 2 else 0
  {
    HeaderOctets(p, sec, fdu.pointer) + fdu.data + Trailer(p, ocf)
  }

  function Packed(m: Mission, p: Primary, sec: Secondary, ocf: seq<byte>, fdu: Fdu): (s: seq<byte>)
    requires Laid(m, p, sec, ocf) && |fdu.data| == m.maxData
    ensures |s| == m.frameLen
  {
    var body := BodyOctets(m, p, sec, ocf, fdu);
    if m.hasCrc then Seal(body) else body
  }

  /** The sequence with the stretch between two offsets replaced. */
  function Replaced(s: seq<byte>, from: nat, stretch: seq<byte>, to: nat): (r: seq<byte>)
    requires from + |stretch| == to <= |s|
    ensures |r| == |s|
  {
    s[..from] + stretch + s[to..]
  }

  /** The first octets are these, and the rest as before. */
  predicate Begins(s: seq<byte>, body: seq<byte>, before: seq<byte>) {
    |body| <= |s| == |before| && s == body + before[|body|..]
  }

  method PutSecondary(p: Primary, sec: Secondary, out: array<byte>)
    requires |sec.data| < 64 && 6 + |SecondaryOctets(p, sec)| <= out.Length
    modifies out
    ensures out[..] == Replaced(old(out[..]), 6, SecondaryOctets(p, sec), 6 + |SecondaryOctets(p, sec)|)
  {
    hide Octet6;
    if p.secHdr == 1 {
      out[6] := Octet6(sec.version, |sec.data|);
      forall i | 0 <= i < |sec.data| {
        out[7 + i] := sec.data[i];
      }
    }
  }

  method PackHeader(p: Primary, sec: Secondary, pointer: nat, out: array<byte>)
    requires |sec.data| < 64 && 6 + |SecondaryOctets(p, sec)| <= out.Length
    modifies out
    ensures Begins(out[..], HeaderOctets(p, sec, pointer), old(out[..]))
  {
    hide Octet0, Octet1, Octet4, PointerBits, LowOctet, SecondaryOctets;
    out[0], out[1], out[2], out[3] := Octet0(p), Octet1(p), p.mc, p.vc;
    out[4], out[5] := Octet4(p, PointerBits(pointer)), LowOctet(pointer);
    PutSecondary(p, sec, out);
  }

  /** Fills a stretch of the frame with data and idle octets behind it. */
  method FillFrom(out: array<byte>, from: nat, data: seq<byte>, to: nat)
    requires from + |data| <= to <= out.Length
    modifies out
    ensures out[..] == Replaced(old(out[..]), from, data + IdleOctets(to - from - |data|), to)
  {
    forall i | 0 <= i < |data| {
      out[from + i] := data[i];
    }
    forall i | from + |data| <= i < to {
      out[i] := IDLE;
    }
  }

  method PutTrailer(p: Primary, ocf: seq<byte>, out: array<byte>, at: nat)
    requires |ocf| == 4 && at + |Trailer(p, ocf)| <= out.Length
    modifies out
    ensures out[..] == Replaced(old(out[..]), at, Trailer(p, ocf), at + |Trailer(p, ocf)|)
  {
    if p.ocf == 1 {
      forall i | 0 <= i < 4 {
        out[at + i] := ocf[i];
      }
    }
  }

  /** `pack_crc`, for a mission that has check values. */
  method PackCrc(m: Mission, out: array<byte>, ghost body: seq<byte>, ghost before: seq<byte>)
    requires m.frameLen <= out.Length && |body| == m.frameLen - if m.hasCrc then 2 else 0
    requires Begins(out[..], body, before)
    modifies out
    ensures Begins(out[..], if m.hasCrc then Seal(body) else body, before)
  {
    if m.hasCrc {
      out[m.frameLen - 2], out[m.frameLen - 1] := 0, 0;
      assert out[..m.frameLen - 2] == body;
      var _ := SealInPlace(out, m.frameLen - 2);
      assert out[m.frameLen..] == before[m.frameLen..];
    }
  }

  lemma Assemble(before: seq<byte>, s: seq<byte>, header: seq<byte>, field: seq<byte>, trailer: seq<byte>)
    requires |header| + |field| + |trailer| <= |before| && Begins(s, header, before)
    ensures var e := |header| + |field|;
            Begins(Replaced(Replaced(s, |header|, field, e), e, trailer, e + |trailer|), header + field + trailer,
                before)
  {
  }

  /** `osdlp_tm_pack`: whatever the data does not fill of the data field becomes idle octets. */
  method Pack(m: Mission, p: Primary, sec: Secondary, ocf: seq<byte>, pointer: nat, out: array<byte>, data: seq<byte>)
    requires Laid(m, p, sec, ocf) && |data| <= m.maxData && m.frameLen <= out.Length
    modifies out
    ensures Begins(out[..], Packed(m, p, sec, ocf, Fdu(pointer, data + IdleOctets(m.maxData - |data|))), old(out[..]))
  {
    hide HeaderOctets, SecondaryOctets, Trailer, Seal, Replaced, Begins, IdleOctets;
    PackHeader(p, sec, pointer, out);
    ghost var s := out[..];
    FillFrom(out, m.headerLen, data, m.headerLen + m.maxData);
    TrailerLength(p, ocf);
    PutTrailer(p, ocf, out, m.headerLen + m.maxData);
    Assemble(old(out[..]), s, HeaderOctets(p, sec, pointer), data + IdleOctets(m.maxData - |data|), Trailer(p, ocf));
    PackCrc(m, out, BodyOctets(m, p, sec, ocf, Fdu(pointer, data + IdleOctets(m.maxData - |data|))), old(out[..]));
  }

  lemma TrailerLength(p: Primary, ocf: seq<byte>)
    requires |ocf| == 4
    ensures |Trailer(p, ocf)| == if p.ocf == 1 then 4 else 0
  {
  }

  // ---------------------------------------------------------------------------------------
  // Filling up a packed frame
  // ---------------------------------------------------------------------------------------

  lemma Refill(s: seq<byte>, header: seq<byte>, data: seq<byte>, trailer: seq<byte>, used: nat, filled: seq<byte>)
    requires used + |filled| == |data| && |header| + |data| + |trailer| <= |s| && Begins(s, header + data + trailer, s)
    ensures Begins(Replaced(s, |header| + used, filled, |header| + |data|),
        header + (data[..used] + filled) + trailer, s)
  {
  }

  /** `handle_pkt_stuffing` on the octets of a frame that waits in the queue: the data field is filled
      up in place and the check value recomputed; the result is the frame packed anew. */
  method StuffInPlace(c: Config, m: Mission, p: Primary, sec: Secondary, ocf: seq<byte>, ghost b: Fdu,
                      frame: array<byte>,
                      used: nat, packet: seq<byte>)
    requires Laid(m, p, sec, ocf) && c.maxData == m.maxData && |b.data| == m.maxData && used <= m.maxData
    requires frame.Length == m.frameLen && frame[..] == Packed(m, p, sec, ocf, b)
    modifies frame
    ensures frame[..] == Packed(m, p, sec, ocf, M.Stuffed(c, b, used, packet))
  {
    hide HeaderOctets, SecondaryOctets, Trailer, Seal, Replaced, Begins, IdleOctets;
    var bytes := Min(m.maxData - used, |packet|);
    ghost var before := frame[..];
    ghost var filled := packet[..bytes] + IdleOctets(m.maxData - used - bytes);
    PackedBegins(m, p, sec, ocf, b);
    FillFrom(frame, m.headerLen + used, packet[..bytes], m.headerLen + m.maxData);
    Refill(before, HeaderOctets(p, sec, b.pointer), b.data, Trailer(p, ocf), used, filled);
    assert M.Stuffed(c, b, used, packet) == Fdu(b.pointer, b.data[..used] + filled);
    PackCrc(m, frame, BodyOctets(m, p, sec, ocf, M.Stuffed(c, b, used, packet)), before);
    NothingElse(frame[..], Packed(m, p, sec, ocf, M.Stuffed(c, b, used, packet)), before);
  }

  lemma PackedBegins(m: Mission, p: Primary, sec: Secondary, ocf: seq<byte>, fdu: Fdu)
    requires Laid(m, p, sec, ocf) && |fdu.data| == m.maxData
    ensures var s := Packed(m, p, sec, ocf, fdu);
            Begins(s, BodyOctets(m, p, sec, ocf, fdu), s)
  {
    hide BodyOctets, Checksum;
  }

  lemma NothingElse(s: seq<byte>, body: seq<byte>, before: seq<byte>)
    requires Begins(s, body, before) && |s| == |body|
    ensures s == body
  {
  }

  lemma BodyOf(m: Mission, p: Primary, sec: Secondary, ocf: seq<byte>, fdu: Fdu)
    requires Laid(m, p, sec, ocf) && |fdu.data| == m.maxData
    ensures var s := Packed(m, p, sec, ocf, fdu);
            var header := HeaderOctets(p, sec, fdu.pointer);
            && |header| == m.headerLen <= |s| - m.maxData
            && s[..m.headerLen] == header && s[m.headerLen..m.headerLen + m.maxData] == fdu.data
  {
    hide HeaderOctets, SecondaryOctets, Checksum;
  }

  // ---------------------------------------------------------------------------------------
  // Receiving
  // ---------------------------------------------------------------------------------------

  /** What the receiver takes for the frame data unit. */
  function FduOf(m: Mission, s: seq<byte>): Fdu
    requires 6 <= m.headerLen && m.headerLen + m.maxData <= |s|
  {
    Fdu(PointerField(s[4], s[5]), s[m.headerLen..m.headerLen + m.maxData])
  }

  /** A frame arrives as it was sent: the same first header pointer, the same data, every header field
      but the version number, and a check value that agrees. */
  lemma ArrivesAsSent(m: Mission, p: Primary, sec: Secondary, ocf: seq<byte>, fdu: Fdu)
    requires Laid(m, p, sec, ocf) && Fits(p) && |fdu.data| == m.maxData && fdu.pointer < 2048
    ensures var s := Packed(m, p, sec, ocf, fdu);
            && |s| >= 6 && FduOf(m, s) == fdu
            && PrimaryOf(s[0], s[1], s[2], s[3], s[4]) == p.(version := if p.version == 0 then 0 else 1)
            && (m.hasCrc ==> CheckPasses(s))
  {
    hide Octet0, Octet1, Octet4, Octet6, PointerBits, LowOctet, PointerField, PrimaryOf, Checksum, High, Low, Word,
        Fits, CheckPasses;
    var s := Packed(m, p, sec, ocf, fdu);
    var header := HeaderOctets(p, sec, fdu.pointer);
    BodyOf(m, p, sec, ocf, fdu);
    PrimaryRoundTrip(p, PointerBits(fdu.pointer));
    PointerRoundTrip(p, fdu.pointer);
    assert forall i :: 0 <= i < 6 ==> s[i] == s[..m.headerLen][i] == header[i];
    if m.hasCrc {
      SealPasses(BodyOctets(m, p, sec, ocf, fdu));
    }
  }

  /** Any burst of up to sixteen bits, anywhere in the frame, makes the check fail. */
  lemma CorruptionIsRejected(m: Mission, p: Primary, sec: Secondary, ocf: seq<byte>, fdu: Fdu, received: seq<byte>,
                             k: nat, width: nat)
    requires Laid(m, p, sec, ocf) && Fits(p) && |fdu.data| == m.maxData && fdu.pointer < 2048 && m.hasCrc
    requires DifferInBurst(Packed(m, p, sec, ocf, fdu), received, k, width) && width <= 16
    requires received != Packed(m, p, sec, ocf, fdu)
    ensures |received| == m.frameLen >= 2 && !CheckPasses(received)
  {
    hide CheckPasses, Packed, FduOf, PrimaryOf, Fits;
    ArrivesAsSent(m, p, sec, ocf, fdu);
    BurstIsDetected(Packed(m, p, sec, ocf, fdu), received, k, width);
  }
}
