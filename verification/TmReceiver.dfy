/** The receiver of src/osdlp_tm.c as it is programmed; it is proved to do what TmDemux.dfy says. */
module TmReceiver {
  import opened Octets
  import opened TmTypes
  import D = TmDemux
  import TF = TmFrame
  import Crc

  // ---------------------------------------------------------------------------------------
  // Received octets
  // ---------------------------------------------------------------------------------------

  predicate Sized(c: Config, m: TF.Mission, s: seq<byte>) {
    && |s| == m.frameLen && 6 <= m.headerLen && m.headerLen + m.maxData <= m.frameLen && m.maxData == c.maxData
    && 2 <= m.frameLen
  }

  /** The check the receiver makes. A mission without check values does not unpack any, but the
      comparison is made all the same, with whatever value was left from before. */
  predicate Agrees(m: TF.Mission, s: seq<byte>, leftOver: bv16)
    requires |s| == m.frameLen >= 2
  {
    var n := m.frameLen - 2;
    Crc.Checksum(s[..n]) == if m.hasCrc then Word(s[n], s[n + 1]) else leftOver
  }

  /** A frame that passes the check does not point behind its data field. */
  predicate Sound(c: Config, m: TF.Mission, s: seq<byte>, leftOver: bv16) {
    Sized(c, m, s) && (Agrees(m, s, leftOver) ==> WellFormed(c, TF.FduOf(m, s)))
  }

  function OnOctets(c: Config, m: TF.Mission, stuffing: bool, st: D.Rx, leftOver: bv16, s: seq<byte>)
      : (D.Rx, D.RxResult)
    requires Sound(c, m, s, leftOver) && 0 < c.maxData
  {
    if !Agrees(m, s, leftOver) then (st, D.RxWrongCrc)
    else if stuffing then D.Receive(c, st, TF.FduOf(m, s))
    else D.ReceivePlain(c, st, TF.FduOf(m, s))
  }

  /** The octets of a packed frame do what the frame data unit does. */
  lemma FrameArrivesAsSent(c: Config, m: TF.Mission, p: TF.Primary, sec: TF.Secondary, ocf: seq<byte>, fdu: Fdu,
                           st: D.Rx, leftOver: bv16)
    requires TF.Laid(m, p, sec, ocf) && TF.Fits(p) && m.hasCrc && m.maxData == c.maxData && 0 < c.maxData < ONLY_IDLE
    requires WellFormed(c, fdu)
    ensures var s := TF.Packed(m, p, sec, ocf, fdu);
            Sound(c, m, s, leftOver) && OnOctets(c, m, true, st, leftOver, s) == D.Receive(c, st, fdu)
            && OnOctets(c, m, false, st, leftOver, s) == D.ReceivePlain(c, st, fdu)
  {
    hide TF.Packed, TF.FduOf, TF.PrimaryOf, D.Receive, D.ReceivePlain, Crc.Checksum, Word, TF.Fits;
    TF.ArrivesAsSent(m, p, sec, ocf, fdu);
  }

  /** Without check values a packed frame gets in exactly if its octets happen to have the left-over
      value for their check value. */
  lemma WithoutCheckValuesExactly(c: Config, m: TF.Mission, p: TF.Primary, sec: TF.Secondary, ocf: seq<byte>, fdu: Fdu,
                                  stuffing: bool, st: D.Rx, leftOver: bv16)
    requires TF.Laid(m, p, sec, ocf) && TF.Fits(p) && !m.hasCrc && m.maxData == c.maxData && 0 < c.maxData < ONLY_IDLE
    requires WellFormed(c, fdu)
    ensures var s := TF.Packed(m, p, sec, ocf, fdu);
            && Sound(c, m, s, leftOver)
            && OnOctets(c, m, stuffing, st, leftOver, s)
               == if Crc.Checksum(s[..m.frameLen - 2]) == leftOver then D.Take(c, stuffing, st, fdu)
                  else (st, D.RxWrongCrc)
  {
    hide TF.Packed, TF.FduOf, TF.PrimaryOf, D.Receive, D.ReceivePlain, Crc.Checksum, Word, TF.Fits;
    TF.ArrivesAsSent(m, p, sec, ocf, fdu);
  }

  /** The value left over for the next frame. */
  function LeftOver(m: TF.Mission, s: seq<byte>, before: bv16): bv16
    requires |s| == m.frameLen >= 2
  {
    if m.hasCrc then Word(s[m.frameLen - 2], s[m.frameLen - 1]) else before
  }

  ghost predicate AllSound(c: Config, m: TF.Mission, frames: seq<seq<byte>>, leftOver: bv16) {
    frames == [] || (Sound(c, m, frames[0], leftOver) && AllSound(c, m, frames[1..], LeftOver(m, frames[0], leftOver)))
  }

  /** A receiver fed one frame of octets after the other. */
  ghost function FeedOctets(c: Config, m: TF.Mission, stuffing: bool, st: D.Rx, frames: seq<seq<byte>>,
                            leftOver: bv16): D.Rx
    requires AllSound(c, m, frames, leftOver) && 0 < c.maxData
    decreases |frames|
  {
    if frames == [] then st
    else FeedOctets(c, m, stuffing, OnOctets(c, m, stuffing, st, leftOver, frames[0]).0, frames[1..],
                    LeftOver(m, frames[0], leftOver))
  }

  /** The frames whose octets have the given check value. */
  function Matching(m: TF.Mission, frames: seq<seq<byte>>, value: bv16): seq<seq<byte>>
    requires m.frameLen >= 2 && forall i :: 0 <= i < |frames| ==> |frames[i]| == m.frameLen
  {
    if frames == [] then []
    else
      var rest := Matching(m, frames[1..], value);
      if Crc.Checksum(frames[0][..m.frameLen - 2]) == value then [frames[0]] + rest else rest
  }

  /** The left-over value never changes: over a whole run a receiver without check values takes in the
      frames of that one check value and ignores all others. */
  lemma {:induction false} OneCheckValueGetsIn(c: Config, m: TF.Mission, stuffing: bool, st: D.Rx,
                                               frames: seq<seq<byte>>, leftOver: bv16)
    requires !m.hasCrc && 0 < c.maxData && AllSound(c, m, frames, leftOver)
    requires m.frameLen >= 2 && forall i :: 0 <= i < |frames| ==> |frames[i]| == m.frameLen
    ensures AllSound(c, m, Matching(m, frames, leftOver), leftOver)
    ensures FeedOctets(c, m, stuffing, st, frames, leftOver)
            == FeedOctets(c, m, stuffing, st, Matching(m, frames, leftOver), leftOver)
    decreases |frames|
  {
    hide Crc.Checksum, TF.FduOf, D.Receive, D.ReceivePlain, WellFormed;
    if frames != [] {
      var t := OnOctets(c, m, stuffing, st, leftOver, frames[0]).0;
      var rest := Matching(m, frames[1..], leftOver);
      OneCheckValueGetsIn(c, m, stuffing, t, frames[1..], leftOver);
      if Crc.Checksum(frames[0][..m.frameLen - 2]) == leftOver {
        assert ([frames[0]] + rest)[1..] == rest;
      } else {
        assert t == st;
      }
    }
  }

  /** Corrupted by a burst of up to sixteen bits they do nothing at all. */
  lemma CorruptionIsIgnored(c: Config, m: TF.Mission, p: TF.Primary, sec: TF.Secondary, ocf: seq<byte>, fdu: Fdu,
                            stuffing: bool, st: D.Rx, leftOver: bv16, received: seq<byte>, k: nat, width: nat)
    requires TF.Laid(m, p, sec, ocf) && TF.Fits(p) && m.hasCrc && m.maxData == c.maxData && 0 < c.maxData < ONLY_IDLE
    requires WellFormed(c, fdu)
    requires Crc.DifferInBurst(TF.Packed(m, p, sec, ocf, fdu), received, k, width) && width <= 16
    requires received != TF.Packed(m, p, sec, ocf, fdu)
    ensures Sound(c, m, received, leftOver) && OnOctets(c, m, stuffing, st, leftOver, received) == (st, D.RxWrongCrc)
  {
    hide TF.Packed, TF.FduOf, D.Receive, D.ReceivePlain, Crc.Checksum, Word, TF.Fits, Crc.DifferInBurst;
    TF.CorruptionIsRejected(m, p, sec, ocf, fdu, received, k, width);
  }

  // ---------------------------------------------------------------------------------------
  // The receiver
  // ---------------------------------------------------------------------------------------

  class Receiver {
    const c: Config
    const m: TF.Mission
    const stuffing: bool
    var crc: bv16
    const buffer: array<byte>
    const rxCap: nat
    var loopOpen: bool
    var bufferedLength: nat
    var expectedPktLen: nat
    var rx: seq<seq<byte>>

    /** The utility buffer holds the largest unit, and anything whose length the hook reports. */
    ghost predicate Valid()
      reads this
    {
      && Sane(c) && c.maxData <= buffer.Length && c.maxSdu <= buffer.Length
      && (forall s, n :: c.lengthOf(s) == Some(n) ==> n <= buffer.Length)
      && (loopOpen ==> bufferedLength <= buffer.Length && expectedPktLen <= buffer.Length)
    }

    ghost function State(): D.Rx
      requires Valid()
      reads this, buffer
    {
      D.Rx(if loopOpen then D.Open(buffer[..bufferedLength], expectedPktLen) else D.Closed, rx, rxCap)
    }

    constructor (c: Config, m: TF.Mission, stuffing: bool, util: array<byte>, cap: nat)
      requires Sane(c) && c.maxData <= util.Length && c.maxSdu <= util.Length
      requires forall s, n :: c.lengthOf(s) == Some(n) ==> n <= util.Length
      ensures Valid() && State() == D.Rx(D.Closed, [], cap) && buffer == util && this.c == c && this.m == m
          && this.stuffing == stuffing
    {
      this.c, this.m, this.stuffing, buffer, rxCap := c, m, stuffing, util, cap;
      loopOpen, bufferedLength, expectedPktLen, rx := false, 0, 0, [];
    }

    /** Closes the loop and hands the first `length` octets of the buffer to the receive queue. */
    method CloseAndEnqueue(length: nat) returns (ok: bool)
      requires Valid() && length <= buffer.Length
      modifies this`loopOpen, this`bufferedLength, this`rx
      ensures Valid() && (State(), ok) == D.Enqueue(old(State()), buffer[..length])
    {
      loopOpen := false;
      bufferedLength := 0;
      ok := |rx| < rxCap;
      if ok { rx := rx + [buffer[..length]]; }
    }

    /** Keeps the rest of a frame, from offset `at` on, as the beginning of a packet. */
    method KeepBeginning(data: seq<byte>, at: nat, expected: nat)
      requires Valid() && |data| == c.maxData && at < |data| && expected <= buffer.Length
      modifies this`loopOpen, this`bufferedLength, this`expectedPktLen, buffer
      ensures Valid() && State() == old(State()).(loop := D.Open(data[at..], expected))
    {
      CopyTo(buffer, 0, data[at..]);
      assert old(buffer[..0]) + data[at..] == data[at..];
      loopOpen := true;
      bufferedLength := c.maxData - at;
      expectedPktLen := expected;
    }

    /** The loop of `handle_s_ptr_zero` and `handle_s_ptr_positive`. */
    method ExplorePackets(data: seq<byte>, from: nat) returns (res: D.RxResult)
      requires Valid() && |data| == c.maxData && from < |data|
      modifies this`loopOpen, this`bufferedLength, this`expectedPktLen, this`rx, buffer
      ensures Valid() && (State(), res) == D.Walk(c, old(State()), data, from)
    {
      hide PacketLen;
      var bytesExplored := from;
      ghost var outcome := D.Walk(c, State(), data, from);
      while true
        invariant Valid() && bytesExplored < |data|
        invariant outcome == D.Walk(c, State(), data, bytesExplored)
        decreases |data| - bytesExplored
      {
        if data[bytesExplored] == IDLE {
          loopOpen := false;
          bufferedLength := 0;
          expectedPktLen := 0;
          return D.RxOk;
        }
        var len := PacketLen(c, data[bytesExplored..]);
        if len.None? {
          KeepBeginning(data, bytesExplored, 0);
          return D.RxPending;
        }
        var length := len.value;
        LengthBounds(length, data[bytesExplored..]);
        if length + bytesExplored > c.maxData {
          KeepBeginning(data, bytesExplored, length);
          return D.RxPending;
        }
        CopyTo(buffer, 0, data[bytesExplored..bytesExplored + length]);
        assert buffer[..length] == data[bytesExplored..bytesExplored + length];
        expectedPktLen := 0;
        loopOpen := false;
        var ok := CloseAndEnqueue(length);
        if !ok {
          return D.RxDenied;
        }
        bytesExplored := bytesExplored + length;
        if bytesExplored == c.maxData {
          return D.RxOk;
        }
      }
    }

    lemma LengthBounds(length: nat, mem: seq<byte>)
      requires Valid() && PacketLen(c, mem) == Some(length)
      ensures 0 < length <= buffer.Length
    {
    }

    /** `handle_s_ptr_nopkt` */
    method HandlePtrNoPkt(data: seq<byte>) returns (res: D.RxResult)
      requires Valid() && |data| == c.maxData
      modifies this`loopOpen, this`bufferedLength, this`expectedPktLen, this`rx, buffer
      ensures Valid() && (State(), res) == D.Continue(c, old(State()), data)
    {
      hide PacketLen;
      if !loopOpen {
        return D.RxError;
      }
      var longer := bufferedLength + c.maxData;
      if expectedPktLen == 0 {
        if longer < c.maxSdu {
          CopyTo(buffer, bufferedLength, data);
          assert buffer[..bufferedLength] == buffer[..longer][..bufferedLength];
          var len := PacketLen(c, buffer[..longer]);
          if len.Some? {
            if longer == len.value {
              var ok := CloseAndEnqueue(longer);
              return if ok then D.RxOk else D.RxDenied;
            } else {
              bufferedLength := longer;
              return D.RxPending;
            }
          }
        } else {
          loopOpen := false;
          bufferedLength := 0;
          return D.RxError;
        }
      }
      if longer > c.maxSdu {
        loopOpen := false;
        bufferedLength := 0;
        res := D.RxError;
      } else {
        CopyTo(buffer, bufferedLength, data);
        if longer == expectedPktLen {
          var ok := CloseAndEnqueue(longer);
          res := if ok then D.RxOk else D.RxDenied;
        } else {
          bufferedLength := longer;
          res := D.RxPending;
        }
      }
    }

    /** The part of `handle_s_ptr_positive` before its loop. */
    method CompletePacket(head: seq<byte>) returns (ok: bool)
      requires Valid()
      modifies this`loopOpen, this`bufferedLength, this`expectedPktLen, this`rx, buffer
      ensures Valid() && (State(), ok) == D.Complete(c, old(State()), head)
    {
      hide PacketLen;
      ok := true;
      if loopOpen && expectedPktLen == 0 {
        if bufferedLength + |head| < c.maxSdu {
          var longer := bufferedLength + |head|;
          CopyTo(buffer, bufferedLength, head);
          assert buffer[..bufferedLength] == buffer[..longer][..bufferedLength];
          var len := PacketLen(c, buffer[..longer]);
          if len.Some? {
            if longer == len.value {
              ok := CloseAndEnqueue(longer);
            } else {
              loopOpen := false;
              bufferedLength := 0;
            }
          }
        }
      } else if loopOpen {
        if |head| + bufferedLength == expectedPktLen {
          CopyTo(buffer, bufferedLength, head);
          ok := CloseAndEnqueue(expectedPktLen);
        }
      }
    }

    /** `handle_rx_stuffing`, behind the test for frames of idle data. */
    method Receive(fdu: Fdu) returns (res: D.RxResult)
      requires Valid() && WellFormed(c, fdu)
      modifies this`loopOpen, this`bufferedLength, this`expectedPktLen, this`rx, buffer
      ensures Valid() && (State(), res) == D.Receive(c, old(State()), fdu)
    {
      hide D.Walk, D.Continue, D.Complete;
      if fdu.pointer == ONLY_IDLE {
        return D.RxOid;
      }
      if fdu.pointer == 0 {
        res := ExplorePackets(fdu.data, 0);
      } else if fdu.pointer == NO_PACKET_START {
        res := HandlePtrNoPkt(fdu.data);
      } else {
        var ok := CompletePacket(fdu.data[..fdu.pointer]);
        if !ok {
          return D.RxDenied;
        }
        res := ExplorePackets(fdu.data, fdu.pointer);
      }
    }

    /** `handle_ns_ptr_zero` */
    method StartPlain(data: seq<byte>) returns (res: D.RxResult)
      requires Valid() && |data| == c.maxData
      modifies this`loopOpen, this`bufferedLength, this`expectedPktLen, this`rx, buffer
      ensures Valid() && (State(), res) == D.StartPlain(c, old(State()), data)
    {
      hide PacketLen;
      var len := PacketLen(c, data);
      if len.None? {
        return D.RxError;
      }
      var length := len.value;
      LengthBounds(length, data);
      if length > c.maxData {
        assert data[0..] == data;
        KeepBeginning(data, 0, length);
        res := D.RxPending;
      } else {
        CopyTo(buffer, 0, data[..length]);
        assert buffer[..length] == data[..length];
        loopOpen := false;
        expectedPktLen := length;
        var ok := CloseAndEnqueue(length);
        res := if ok then D.RxOk else D.RxDenied;
      }
    }

    /** `handle_ns_ptr_positive` */
    method ContinuePlain(part: seq<byte>) returns (res: D.RxResult)
      requires Valid()
      modifies this`loopOpen, this`bufferedLength, this`rx, buffer
      ensures Valid() && (State(), res) == D.ContinuePlain(c, old(State()), part)
    {
      if !loopOpen {
        return D.RxError;
      }
      var longer := bufferedLength + |part|;
      if longer > c.maxSdu {
        loopOpen := false;
        bufferedLength := 0;
        return D.RxError;
      }
      CopyTo(buffer, bufferedLength, part);
      if longer == expectedPktLen {
        var ok := CloseAndEnqueue(longer);
        res := if ok then D.RxOk else D.RxDenied;
      } else {
        bufferedLength := longer;
        res := D.RxPending;
      }
    }

    /** `handle_rx_no_stuffing` */
    method ReceivePlain(fdu: Fdu) returns (res: D.RxResult)
      requires Valid() && WellFormed(c, fdu)
      modifies this`loopOpen, this`bufferedLength, this`expectedPktLen, this`rx, buffer
      ensures Valid() && (State(), res) == D.ReceivePlain(c, old(State()), fdu)
    {
      hide D.StartPlain, D.ContinuePlain;
      if fdu.pointer == ONLY_IDLE {
        return D.RxOid;
      }
      if fdu.pointer == 0 {
        res := StartPlain(fdu.data);
      } else if fdu.pointer == NO_PACKET_START {
        res := ContinuePlain(fdu.data);
      } else {
        res := ContinuePlain(fdu.data[..fdu.pointer]);
      }
    }

    /** `osdlp_tm_unpack`, as far as multiplexing is concerned, and the comparison of check values. */
    method UnpackAndCheck(data: array<byte>) returns (fdu: Fdu, ok: bool)
      requires Sized(c, m, data[..])
      modifies this`crc
      ensures fdu == TF.FduOf(m, data[..]) && ok == Agrees(m, data[..], old(crc))
      ensures crc == if m.hasCrc then Word(data[m.frameLen - 2], data[m.frameLen - 1]) else old(crc)
    {
      hide TF.PointerField, Crc.Checksum, Word;
      fdu := Fdu(TF.PointerField(data[4], data[5]), data[m.headerLen..m.headerLen + m.maxData]);
      assert data[m.headerLen..m.headerLen + m.maxData] == data[..][m.headerLen..m.headerLen + m.maxData];
      if m.hasCrc {
        crc := Word(data[m.frameLen - 2], data[m.frameLen - 1]);
      }
      var computed := Crc.CalcCrc(data, m.frameLen - 2);
      assert data[..m.frameLen - 2] == data[..][..m.frameLen - 2];
      ok := computed == crc;
    }

    /** `osdlp_tm_receive` */
    method ReceiveFrame(data: array<byte>) returns (res: D.RxResult)
      requires Valid() && data != buffer && Sound(c, m, data[..], crc)
      modifies this, buffer
      ensures Valid() && (State(), res) == OnOctets(c, m, stuffing, old(State()), old(crc), old(data[..]))
      ensures crc == if m.hasCrc then Word(data[m.frameLen - 2], data[m.frameLen - 1]) else old(crc)
    {
      hide D.Receive, D.ReceivePlain, Agrees, TF.FduOf, Word;
      var fdu, ok := UnpackAndCheck(data);
      if !ok {
        return D.RxWrongCrc;
      }
      if !stuffing {
        res := ReceivePlain(fdu);
      } else {
        res := Receive(fdu);
      }
    }
  }
}
