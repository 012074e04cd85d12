/** What the result of taking a TM frame tells: whether a packet is under way, and whether one was lost for
    want of room. */
module TmResults {
  import opened Octets
  import opened TmTypes
  import D = TmDemux
  import F = TmFeed

  /** The receiver with a longer receive queue. */
  function Roomier(s: D.Rx, cap: nat): D.Rx {
    s.(rxCap := cap)
  }

  /** Of two receivers that differ in their room only, the narrow one is denied a packet exactly if the wide
      one ends up with more packets than fit; it has then delivered as many as fit and has no packet
      under way. Otherwise they agree. */
  predicate DeniedExactly(s: D.Rx, t: D.Rx, res: D.RxResult, wide: D.Rx, wideRes: D.RxResult) {
    && wideRes != D.RxDenied
    && (res == D.RxDenied <==> |wide.rx| > s.rxCap)
    && (res == D.RxDenied ==> t.rx == wide.rx[..s.rxCap] && t.loop == D.Closed)
    && (res != D.RxDenied ==> res == wideRes && t == wide.(rxCap := s.rxCap))
  }

  /** The result tells of the packet under way. */
  predicate TellsLoop(s: D.Rx, t: D.Rx, res: D.RxResult) {
    && res != D.RxWrongCrc
    && (res == D.RxPending ==> t.loop.Open?)
    && (res == D.RxOk || res == D.RxDenied ==> t.loop.Closed?)
    && (res == D.RxError ==> t.rx == s.rx && (t == s || t.loop.Closed?))
  }

  lemma {:induction false} WalkTells(c: Config, s: D.Rx, data: seq<byte>, at: nat, cap: nat)
    requires at < |data| && (forall m :: c.lengthOf(m) != Some(0))
    requires |s.rx| <= s.rxCap && |s.rx| + |data| - at <= cap
    ensures var (t, res) := D.Walk(c, s, data, at);
            var (w, wideRes) := D.Walk(c, Roomier(s, cap), data, at);
            DeniedExactly(s, t, res, w, wideRes) && TellsLoop(s, t, res) && res != D.RxError && res != D.RxOid
    decreases |data| - at
  {
    hide PacketLen;
    if data[at] != IDLE {
      var len := PacketLen(c, data[at..]);
      if len.Some? && at + len.value <= |data| {
        assert len.value > 0 by { NoEmptyPacket(c, data[at..]); }
        var p := data[at..at + len.value];
        var w := D.Enqueue(Roomier(s, cap), p).0;
        if at + len.value < |data| {
          F.WalkOnlyAdds(c, w, data, at + len.value);
          if |s.rx| < s.rxCap {
            var t := D.Enqueue(s, p).0;
            assert Roomier(t, cap) == w;
            WalkTells(c, t, data, at + len.value, cap);
          } else {
            WalkTells(c, D.Enqueue(s.(rxCap := cap), p).0, data, at + len.value, cap);
          }
        }
      }
    }
  }

  lemma NoEmptyPacket(c: Config, mem: seq<byte>)
    requires forall m :: c.lengthOf(m) != Some(0)
    ensures PacketLen(c, mem) != Some(0)
  {
  }

  lemma CompleteTells(c: Config, s: D.Rx, head: seq<byte>, cap: nat)
    requires |s.rx| <= s.rxCap && |s.rx| < cap
    ensures var (t, ok) := D.Complete(c, s, head);
            var (w, fits) := D.Complete(c, Roomier(s, cap), head);
            && fits && (ok <==> |w.rx| <= s.rxCap)
            && (if ok then t == w.(rxCap := s.rxCap) else t.rx == s.rx == w.rx[..s.rxCap] && t.loop == D.Closed)
            && |w.rx| <= |s.rx| + 1 && w.rxCap == cap
  {
    hide PacketLen;
  }

  /** With stuffing. */
  lemma ReceiveTells(c: Config, s: D.Rx, fdu: Fdu, cap: nat)
    requires Sane(c) && WellFormed(c, fdu) && |s.rx| <= s.rxCap && |s.rx| + c.maxData < cap
    ensures var (t, res) := D.Receive(c, s, fdu);
            var (w, wideRes) := D.Receive(c, Roomier(s, cap), fdu);
            && DeniedExactly(s, t, res, w, wideRes) && TellsLoop(s, t, res)
            && (res == D.RxError ==> fdu.pointer == NO_PACKET_START)
            && (res == D.RxOid <==> fdu.pointer == ONLY_IDLE) && (res == D.RxOid ==> t == s)
  {
    hide D.Walk, D.Complete, PacketLen;
    if fdu.pointer == 0 {
      WalkTells(c, s, fdu.data, 0, cap);
    } else if fdu.pointer < c.maxData {
      var head := fdu.data[..fdu.pointer];
      CompleteTells(c, s, head, cap);
      var (t, ok) := D.Complete(c, s, head);
      var w := D.Complete(c, Roomier(s, cap), head).0;
      if ok {
        WalkTells(c, t, fdu.data, fdu.pointer, cap);
      } else {
        WalkTells(c, w, fdu.data, fdu.pointer, cap);
        F.WalkOnlyAdds(c, w, fdu.data, fdu.pointer);
      }
    }
  }

  /** What any frame does, with stuffing or without: the results PENDING, OK and DENIED tell whether a packet
      is under way afterwards; DENIED is told exactly if what the frame completes does not fit; an error
      delivers nothing; and a frame of idle data, which is told by itself, changes nothing. */
  lemma ResultTells(c: Config, stuffing: bool, s: D.Rx, fdu: Fdu, cap: nat)
    requires Sane(c) && WellFormed(c, fdu) && |s.rx| <= s.rxCap && |s.rx| + c.maxData < cap
    ensures var (t, res) := D.Take(c, stuffing, s, fdu);
            var (w, wideRes) := D.Take(c, stuffing, Roomier(s, cap), fdu);
            && DeniedExactly(s, t, res, w, wideRes) && TellsLoop(s, t, res)
            && (res == D.RxOid <==> fdu.pointer == 0x7fe) && (res == D.RxOid ==> t == s)
  {
    if stuffing {
      ReceiveTells(c, s, fdu, cap);
      hide D.Receive;
    } else {
      hide PacketLen, D.Receive;
    }
  }

  /** An error has three causes: a frame that carries on a packet while none is under way; octets gathered
      beyond the largest unit, which are dropped; and, without stuffing, a frame too short to tell the
      length of the packet it starts. Only the second changes the receiver. */
  lemma ErrorExactly(c: Config, stuffing: bool, s: D.Rx, fdu: Fdu)
    requires Sane(c) && WellFormed(c, fdu) && |s.rx| <= s.rxCap
    ensures var (t, res) := D.Take(c, stuffing, s, fdu);
            var carriesOn := if stuffing then fdu.pointer == NO_PACKET_START
                             else fdu.pointer != 0 && fdu.pointer != ONLY_IDLE;
            var share := if fdu.pointer == NO_PACKET_START then fdu.data else fdu.data[..Min(fdu.pointer, |fdu.data|)];
            var tooLong := s.loop.Open? && (var n := |s.loop.octets + share|;
                             n > c.maxSdu || (stuffing && s.loop.expected == 0 && n == c.maxSdu));
            && (res == D.RxError <==>
                  || (carriesOn && (s.loop.Closed? || tooLong))
                  || (!stuffing && fdu.pointer == 0 && PacketLen(c, fdu.data).None?))
            && (res == D.RxError ==> t == if carriesOn && s.loop.Open? then s.(loop := D.Closed) else s)
  {
    hide PacketLen;
    if stuffing {
      if fdu.pointer < c.maxData {
        ReceiveTells(c, s, fdu, |s.rx| + c.maxData + 1);
      }
      hide D.Walk, D.Complete;
    }
  }
}
