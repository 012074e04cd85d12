/** TM multiplexing end to end: what is stuffed into frames is what is rebuilt from them. */
module TmService {
  import opened Octets
  import opened TmTypes
  import opened TmMux
  import opened TmFeed
  import opened TmRuns
  import D = TmDemux

  // ---------------------------------------------------------------------------------------
  // Walking over a frame
  // ---------------------------------------------------------------------------------------

  /** A frame walked from its start or from its first header pointer does not depend on what was
      under way before. */
  lemma WalkForgetsLoop(c: Config, s: D.Rx, data: seq<byte>, at: nat, loop: D.Loop)
    requires at < |data|
    ensures D.Walk(c, s.(loop := loop), data, at) == D.Walk(c, s, data, at)
  {
  }

  function With(s: D.Rx, pkts: seq<seq<byte>>): D.Rx {
    s.(loop := D.Closed, rx := s.rx + pkts)
  }

  /** One step over a packet that lies whole in the data. */
  lemma WalkOne(c: Config, s: D.Rx, data: seq<byte>, from: nat, pkts: seq<seq<byte>>, to: nat)
    requires Sane(c) && Lies(c, data, from, pkts, to) && pkts != []
    ensures from < |data| && from + |pkts[0]| <= to
    ensures D.Walk(c, s, data, from).0
         == if |s.rx| >= s.rxCap then s.(loop := D.Closed)
            else if from + |pkts[0]| == |data| then With(s, [pkts[0]])
            else D.Walk(c, With(s, [pkts[0]]), data, from + |pkts[0]|).0
  {
    FirstPacket(c, data, from, pkts, to);
  }

  /** With room, walking over packets delivers them; what follows is then walked on. */
  lemma {:induction false} WalkDelivers(c: Config, s: D.Rx, data: seq<byte>, from: nat, pkts: seq<seq<byte>>, to: nat)
    requires Sane(c) && Lies(c, data, from, pkts, to) && from < |data| && |s.rx| + |pkts| <= s.rxCap
    ensures D.Walk(c, s, data, from).0 == if to == |data| then With(s, pkts) else D.Walk(c, With(s, pkts), data, to).0
    decreases |pkts|
  {
    hide D.Walk, PacketLen;
    if pkts == [] {
      assert from == to;
      assert s.rx + [] == s.rx;
      WalkForgetsLoop(c, s, data, from, D.Closed);
    } else {
      WalkOne(c, s, data, from, pkts, to);
      FirstPacket(c, data, from, pkts, to);
      var s1 := With(s, [pkts[0]]);
      assert s1.rx + pkts[1..] == s.rx + pkts;
      if from + |pkts[0]| == |data| {
        NothingFits(c, data, pkts[1..], to);
        assert [pkts[0]] == pkts;
      } else {
        WalkDelivers(c, s1, data, from + |pkts[0]|, pkts[1..], to);
      }
    }
  }

  lemma NothingFits(c: Config, data: seq<byte>, pkts: seq<seq<byte>>, to: nat)
    requires Lies(c, data, |data|, pkts, to)
    ensures pkts == []
  {
    if pkts != [] {
      FirstPacket(c, data, |data|, pkts, to);
    }
  }

  /** If the walk did not fill the receive queue, there was room for all the packets. */
  lemma {:induction false} NotFullMeansRoom(c: Config, s: D.Rx, data: seq<byte>, from: nat, pkts: seq<seq<byte>>,
                                            to: nat)
    requires Sane(c) && Lies(c, data, from, pkts, to) && from < |data|
    requires |D.Walk(c, s, data, from).0.rx| < s.rxCap
    ensures |s.rx| + |pkts| <= s.rxCap
    decreases |pkts|
  {
    hide D.Walk, PacketLen;
    if pkts == [] {
      WalkOnlyAdds(c, s, data, from);
    } else {
      WalkOne(c, s, data, from, pkts, to);
      FirstPacket(c, data, from, pkts, to);
      if from + |pkts[0]| == |data| {
        NothingFits(c, data, pkts[1..], to);
      } else if |s.rx| < s.rxCap {
        NotFullMeansRoom(c, With(s, [pkts[0]]), data, from + |pkts[0]|, pkts[1..], to);
      }
    }
  }

  // ---------------------------------------------------------------------------------------
  // A packet under way
  // ---------------------------------------------------------------------------------------

  /** The receiver has the first `off` octets of the packet, and knows its length or not yet. */
  predicate Under(s: D.Rx, p: seq<byte>, off: nat) {
    0 < off < |p| && s.loop.Open? && s.loop.octets == p[..off] && (s.loop.expected == 0 || s.loop.expected == |p|)
  }

  /** At the end of the data the walk meets the beginning of a packet. */
  lemma WalkMeetsBeginning(c: Config, s: D.Rx, data: seq<byte>, at: nat, p: seq<byte>)
    requires at < |data| && Told(c, p) && |data| - at < |p| && data[at..] == p[..|data| - at]
    ensures Under(D.Walk(c, s, data, at).0, p, |data| - at)
    ensures D.Walk(c, s, data, at).0.rx == s.rx && D.Walk(c, s, data, at).0.rxCap == s.rxCap
  {
    assert data[at] == data[at..][0] == p[0];
    BeginningTellsLength(c, p, data[at..]);
  }

  /** At the end of the packets the walk meets idle octets. */
  lemma WalkMeetsIdle(c: Config, s: D.Rx, data: seq<byte>, at: nat)
    requires at < |data| && data[at..] == IdleOctets(|data| - at)
    ensures D.Walk(c, s, data, at).0 == s.(loop := D.Closed)
  {
    assert data[at] == data[at..][0];
  }

  /** A frame that starts with a packet. */
  lemma FirstFrame(c: Config, s: D.Rx, p: seq<byte>)
    requires Sane(c) && Packet(c, p) && |s.rx| < s.rxCap
    ensures var fdu := NextFdu(c, p, |p|);
            var t := D.Receive(c, s, fdu).0;
            && WellFormed(c, fdu)
            && (if |p| <= c.maxData then t == With(s, [p]) && BackOk(c, fdu)
                else Under(t, p, c.maxData) && t.rx == s.rx && t.rxCap == s.rxCap)
  {
    var fdu := NextFdu(c, p, |p|);
    assert p[|p| - |p|..] == p;
    if |p| <= c.maxData {
      assert fdu.data == p + IdleOctets(c.maxData - |p|);
      WholePacketLies(c, fdu.data, 0, p);
      assert fdu.data[|p|..] == IdleOctets(c.maxData - |p|);
      assert LongLayout(c, fdu.data, 0, [p], |p|);
      WalkDelivers(c, s, fdu.data, 0, [p], |p|);
      if |p| < c.maxData {
        WalkMeetsIdle(c, With(s, [p]), fdu.data, |p|);
      }
    } else {
      assert fdu.data == p[..c.maxData];
      assert fdu.data[0..] == p[..c.maxData];
      WalkMeetsBeginning(c, s, fdu.data, 0, p);
    }
  }

  lemma WholePacketLies(c: Config, data: seq<byte>, at: nat, p: seq<byte>)
    requires |data| == c.maxData && Told(c, p) && at + |p| <= |data| && data[at..at + |p|] == p
    ensures Lies(c, data, at, [p], at + |p|)
  {
    assert Flatten([p]) == p + Flatten([p][1..]) == p;
  }

  /** The last frame in the queue can be filled up: it is full with a packet under way, or its packets
      are followed by idle octets only. */
  ghost predicate BackOk(c: Config, fdu: Fdu) {
    && WellFormed(c, fdu)
    && (fdu.pointer == NO_PACKET_START
        || (fdu.pointer < c.maxData && exists pkts, to :: LongLayout(c, fdu.data, fdu.pointer, pkts, to)))
  }

  ghost predicate LongLayout(c: Config, data: seq<byte>, from: nat, pkts: seq<seq<byte>>, to: nat) {
    Layout(c, data, from, pkts, to) && forall i :: 0 <= i < |pkts| ==> c.headerLen < |pkts[i]|
  }

  /** A frame that carries a packet on without reaching its end, or just reaching it. */
  lemma MiddleFrame(c: Config, s: D.Rx, p: seq<byte>, off: nat)
    requires Sane(c) && Packet(c, p) && |s.rx| < s.rxCap && Under(s, p, off) && |p| - off >= c.maxData
    ensures var fdu := NextFdu(c, p, |p| - off);
            var t := D.Receive(c, s, fdu).0;
            && BackOk(c, fdu)
            && (if |p| - off == c.maxData then t == With(s, [p])
                else Under(t, p, off + c.maxData) && t.rx == s.rx && t.rxCap == s.rxCap)
  {
    var fdu := NextFdu(c, p, |p| - off);
    assert fdu.data == p[off..off + c.maxData];
    var longer := s.loop.octets + fdu.data;
    assert longer == p[..off + c.maxData];
    BeginningTellsLength(c, p, longer);
    if |longer| == |p| { assert longer == p; }
  }

  /** The frame in which a packet ends. */
  lemma LastFrame(c: Config, s: D.Rx, p: seq<byte>, off: nat)
    requires Sane(c) && Packet(c, p) && |s.rx| < s.rxCap && Under(s, p, off) && |p| - off < c.maxData
    ensures var fdu := NextFdu(c, p, |p| - off);
            D.Receive(c, s, fdu).0 == With(s, [p]) && BackOk(c, fdu)
  {
    var rest := |p| - off;
    var fdu := NextFdu(c, p, rest);
    assert fdu.data[..rest] == p[off..];
    assert fdu.data[rest..] == IdleOctets(c.maxData - rest);
    var longer := s.loop.octets + fdu.data[..rest];
    assert longer == p;
    BeginningTellsLength(c, p, longer);
    assert D.Complete(c, s, fdu.data[..rest]) == (With(s, [p]), true);
    WalkMeetsIdle(c, With(s, [p]), fdu.data, rest);
    assert LongLayout(c, fdu.data, rest, [], rest);
  }

  // ---------------------------------------------------------------------------------------
  // What a call does to the packets
  // ---------------------------------------------------------------------------------------

  /** What the receiver will have once the whole queue has reached it: the packets `given`, and the
      first `off` octets of one more. */
  ghost predicate Ahead(c: Config, s: D.Rx, q: seq<Fdu>, given: seq<seq<byte>>, p: seq<byte>, off: nat) {
    && AllWellFormed(c, q) && c.maxData > 0
    && FeedAll(c, true, s, q).rx == given
    && (off > 0 ==> Under(FeedAll(c, true, s, q), p, off))
  }

  /** The sender's queue ends in a frame that can be filled up. */
  ghost predicate TailOk(c: Config, q: seq<Fdu>) {
    q != [] ==> BackOk(c, q[|q| - 1])
  }

  /** Outcome of a call that has `off` octets of the packet in the queue so far. */
  ghost predicate Carried(c: Config, s: D.Rx, given: seq<seq<byte>>, p: seq<byte>, tx: Tx, ok: bool) {
    if ok then !tx.open && tx.buffered == 0 && Ahead(c, s, tx.q, given + [p], p, 0) && TailOk(c, tx.q)
    else tx.open && tx.buffered < |p| && Ahead(c, s, tx.q, given, p, tx.buffered)
  }

  /** One frame more of a packet under way, or of a new one. */
  lemma NextFrame(c: Config, s: D.Rx, q: seq<Fdu>, given: seq<seq<byte>>, p: seq<byte>, off: nat)
    requires Sane(c) && Packet(c, p) && |given| < s.rxCap && off < |p| && Ahead(c, s, q, given, p, off)
    ensures var fdu := NextFdu(c, p, |p| - off);
            && WellFormed(c, fdu)
            && if |p| - off <= c.maxData then Ahead(c, s, q + [fdu], given + [p], p, 0) && BackOk(c, fdu)
               else Ahead(c, s, q + [fdu], given, p, off + c.maxData)
  {
    hide D.Receive, D.Walk, PacketLen, FeedAll;
    FeedOnlyAdds(c, true, s, q);
    var r := FeedAll(c, true, s, q);
    if off == 0 {
      FirstFrame(c, r, p);
    } else if |p| - off >= c.maxData {
      MiddleFrame(c, r, p, off);
    } else {
      LastFrame(c, r, p, off);
    }
    hide NextFdu, Packet;
    FeedOneMore(c, true, s, q, NextFdu(c, p, |p| - off));
  }

  lemma {:induction false} EmitCarries(c: Config, s: D.Rx, given: seq<seq<byte>>, tx: Tx, p: seq<byte>,
                                       remaining: nat, n: nat)
    requires Sane(c) && Packet(c, p) && |given| < s.rxCap && 0 < remaining <= |p|
        && n == FramesFor(remaining, c.maxData)
    requires Ahead(c, s, tx.q, given, p, |p| - remaining)
    ensures var (t, ok) := Emit(c, tx, p, remaining, n);
            Carried(c, s, given, p, t, ok) && t.cap == tx.cap
    decreases n
  {
    hide NextFdu, Ahead, FramesFor;
    OneFrame(remaining, c.maxData);
    if |tx.q| < tx.cap {
      NextFrame(c, s, tx.q, given, p, |p| - remaining);
      var tx' := tx.(q := tx.q + [NextFdu(c, p, remaining)]);
      if remaining <= c.maxData {
        assert Emit(c, tx, p, remaining, n) == (tx'.(open := false, buffered := 0), true);
      } else {
        OneFrameLess(remaining, c.maxData);
        EmitCarries(c, s, given, tx', p, remaining - c.maxData, n - 1);
      }
    }
  }

  // ---------------------------------------------------------------------------------------
  // Filling up a frame that waits in the queue
  // ---------------------------------------------------------------------------------------

  /** The receiver when it has dealt with the octets before the first header pointer. */
  function BeforeWalk(c: Config, s: D.Rx, fdu: Fdu): D.Rx
    requires WellFormed(c, fdu)
  {
    if 0 < fdu.pointer < c.maxData then D.Complete(c, s, fdu.data[..fdu.pointer]).0 else s
  }

  lemma ReceiveWalks(c: Config, s: D.Rx, fdu: Fdu)
    requires Sane(c) && WellFormed(c, fdu) && fdu.pointer < c.maxData
    requires |D.Receive(c, s, fdu).0.rx| < s.rxCap
    ensures D.Receive(c, s, fdu).0 == D.Walk(c, BeforeWalk(c, s, fdu), fdu.data, fdu.pointer).0
    ensures fdu.pointer > 0 ==> D.Complete(c, s, fdu.data[..fdu.pointer]).1
    ensures BeforeWalk(c, s, fdu).rxCap == s.rxCap
  {
    hide D.Walk, PacketLen;
  }

  /** Up to the end of its packets, a frame that is filled up reads as before. */
  lemma FilledReadsAlike(c: Config, s: D.Rx, b: Fdu, b': Fdu, pkts: seq<seq<byte>>, to: nat)
    requires Sane(c) && WellFormed(c, b) && WellFormed(c, b') && b'.pointer == b.pointer < c.maxData && to < c.maxData
    requires Layout(c, b.data, b.pointer, pkts, to) && b'.data[..to] == b.data[..to]
    requires |D.Receive(c, s, b).0.rx| < s.rxCap
    ensures D.Receive(c, s, b').0 == D.Walk(c, D.Receive(c, s, b).0, b'.data, to).0
    ensures Lies(c, b'.data, b.pointer, pkts, to)
  {
    var s2 := BeforeWalk(c, s, b);
    ReceiveWalks(c, s, b);
    assert b.data[..b.pointer] == b.data[..to][..b.pointer] == b'.data[..b.pointer];
    assert D.Receive(c, s, b').0 == D.Walk(c, s2, b'.data, b.pointer).0;
    hide D.Walk, D.Receive, D.Complete, BeforeWalk, PacketLen;
    assert b'.data[b.pointer..to] == b'.data[..to][b.pointer..] == b.data[b.pointer..to];
    NotFullMeansRoom(c, s2, b.data, b.pointer, pkts, to);
    WalkDelivers(c, s2, b.data, b.pointer, pkts, to);
    WalkMeetsIdle(c, With(s2, pkts), b.data, to);
    WalkDelivers(c, s2, b'.data, b.pointer, pkts, to);
  }

  lemma LayoutGrows(c: Config, data: seq<byte>, from: nat, pkts: seq<seq<byte>>, to: nat, p: seq<byte>)
    requires Lies(c, data, from, pkts, to) && Told(c, p) && to + |p| <= |data| && data[to..to + |p|] == p
    requires data[to + |p|..] == IdleOctets(|data| - to - |p|)
    ensures Layout(c, data, from, pkts + [p], to + |p|)
  {
    FlattenAppend(pkts, [p]);
    assert Flatten([p]) == p + Flatten([p][1..]) == p;
    assert data[from..to + |p|] == data[from..to] + data[to..to + |p|];
  }

  lemma StuffedFrame(c: Config, s: D.Rx, b: Fdu, pkts: seq<seq<byte>>, used: nat, p: seq<byte>)
    requires Sane(c) && Packet(c, p) && WellFormed(c, b) && b.pointer < c.maxData && used < c.maxData
    requires LongLayout(c, b.data, b.pointer, pkts, used)
    requires |D.Receive(c, s, b).0.rx| < s.rxCap
    ensures var b' := Stuffed(c, b, used, p);
            var r, t := D.Receive(c, s, b).0, D.Receive(c, s, b').0;
            && WellFormed(c, b')
            && if |p| <= c.maxData - used then t == With(r, [p]) && BackOk(c, b')
               else Under(t, p, c.maxData - used) && t.rx == r.rx
  {
    var b' := Stuffed(c, b, used, p);
    var r := D.Receive(c, s, b).0;
    var bytes := Min(c.maxData - used, |p|);
    assert b'.data[..used] == b.data[..used];
    assert b'.data[used..used + bytes] == p[..bytes];
    assert b'.data[used + bytes..] == IdleOctets(c.maxData - used - bytes);
    FilledReadsAlike(c, s, b, b', pkts, used);
    ReceiveOnlyAdds(c, s, b);
    hide D.Walk, D.Receive, PacketLen, Stuffed;
    if |p| <= c.maxData - used {
      assert p[..bytes] == p;
      WholePacketLies(c, b'.data, used, p);
      WalkDelivers(c, r, b'.data, used, [p], used + |p|);
      if used + |p| < c.maxData {
        WalkMeetsIdle(c, With(r, [p]), b'.data, used + |p|);
      }
      LayoutGrows(c, b'.data, b.pointer, pkts, used, p);
      assert LongLayout(c, b'.data, b.pointer, pkts + [p], used + |p|);
    } else {
      assert b'.data[used..] == p[..c.maxData - used];
      WalkMeetsBeginning(c, r, b'.data, used, p);
    }
  }

  /** Stuffing the last frame of the queue carries the packet, or its beginning. */
  lemma StuffCarries(c: Config, s: D.Rx, given: seq<seq<byte>>, q: seq<Fdu>, p: seq<byte>)
    requires Sane(c) && Packet(c, p) && |given| < s.rxCap && q != [] && Ahead(c, s, q, given, p, 0) && TailOk(c, q)
    requires Residue(c, q[|q| - 1]) < c.maxData
    ensures var used := Residue(c, q[|q| - 1]);
            var q' := q[|q| - 1 := Stuffed(c, q[|q| - 1], used, p)];
            if |p| <= c.maxData - used then Ahead(c, s, q', given + [p], p, 0) && TailOk(c, q')
            else Ahead(c, s, q', given, p, c.maxData - used)
  {
    hide D.Receive, D.Walk, PacketLen, FeedAll, PacketsEnd, Stuffed;
    var front, b := q[..|q| - 1], q[|q| - 1];
    var pkts, to :| LongLayout(c, b.data, b.pointer, pkts, to);
    LongPacketsAreSeen(c, b, pkts, to);
    hide Residue;
    var s1 := FeedAll(c, true, s, front);
    assert q == front + [b];
    FeedOneMore(c, true, s, front, b);
    FeedOnlyAdds(c, true, s, front);
    StuffedFrame(c, s1, b, pkts, to, p);
    var b' := Stuffed(c, b, to, p);
    assert q[|q| - 1 := b'] == front + [b'];
    FeedOneMore(c, true, s, front, b');
  }

  /** A call carries its packet: with its success the receiver will have it after all the packets
      before; refused by the queue, it has left everything before intact and recorded how far it got,
      so that the next call carries on from there. */
  lemma TransmitCarries(c: Config, s: D.Rx, given: seq<seq<byte>>, tx: Tx, visible: bool, p: seq<byte>)
    requires Sane(c) && Packet(c, p) && |given| < s.rxCap && TxOk(c, tx)
    requires tx.buffered < |p| && Ahead(c, s, tx.q, given, p, tx.buffered) && (!tx.open ==> TailOk(c, tx.q))
    ensures var (t, ok) := Transmit(c, tx, visible, p);
            Carried(c, s, given, p, t, ok) && t.cap == tx.cap
  {
    hide Ahead, TailOk, Emit, FramesFor, Residue, Stuffed;
    if tx.q == [] || tx.open {
      var remaining := |p| - tx.buffered;
      EmitCarries(c, s, given, tx, p, remaining, FramesFor(remaining, c.maxData));
    } else {
      var last := |tx.q| - 1;
      assert WellFormed(c, tx.q[last]);
      var used := if visible then Residue(c, tx.q[last]) else c.maxData;
      if used >= c.maxData {
        EmitCarries(c, s, given, tx, p, |p|, FramesFor(|p|, c.maxData));
      } else {
        StuffCarries(c, s, given, tx.q, p);
        OneFrame(|p| + used, c.maxData);
        var n := FramesFor(|p| + used, c.maxData);
        var tx' := tx.(q := tx.q[last := Stuffed(c, tx.q[last], used, p)]);
        if n == 1 {
          EmitNothing(c, tx', p);
        } else {
          OneFrameLess(|p| + used, c.maxData);
          EmitCarries(c, s, given, tx', p, |p| - (c.maxData - used), n - 1);
        }
      }
    }
  }

  lemma EmitNothing(c: Config, tx: Tx, p: seq<byte>)
    ensures Emit(c, tx, p, 0, 0) == (tx.(open := false, buffered := 0), true)
  {
  }

  // ---------------------------------------------------------------------------------------
  // Runs
  // ---------------------------------------------------------------------------------------

  ghost predicate Invariant(c: Config, s: Link) {
    && Ahead(c, s.rx, s.tx.q, s.given, s.current, s.tx.buffered)
    && (if s.tx.open then s.tx.buffered < |s.current| else s.tx.buffered == 0 && TailOk(c, s.tx.q))
  }

  lemma FrameStaysAhead(c: Config, s: Link)
    requires Sane(c) && Invariant(c, s) && s.tx.q != []
    ensures Invariant(c, After(c, true, s, FramePasses))
  {
    FeedFirst(c, true, s.rx, s.tx.q);
    hide D.Receive, FeedAll, BackOk;
  }

  lemma CallStaysAhead(c: Config, s: Link, p: seq<byte>, visible: bool)
    requires Sane(c) && Invariant(c, s) && Enabled(c, true, s, Call(p, visible))
    ensures Invariant(c, After(c, true, s, Call(p, visible)))
  {
    hide TailOk, Transmit, FeedAll;
    TransmitCarries(c, s.rx, s.given, s.tx, visible, p);
  }

  lemma {:induction false} RunStaysAhead(c: Config, s: Link, run: seq<Act>)
    requires Sane(c) && Invariant(c, s) && ValidRun(c, true, s, run)
    ensures Invariant(c, Final(c, true, s, run))
    decreases |run|
  {
    hide After, Invariant;
    if run != [] {
      match run[0] {
        case Call(p, visible) => CallStaysAhead(c, s, p, visible);
        case FramePasses => FrameStaysAhead(c, s);
      }
      RunStaysAhead(c, After(c, true, s, run[0]), run[1..]);
    }
  }

  /** Over every run of calls and passing frames, whatever the lengths of the packets and however often
      the queue refuses a frame: the receiver has a prefix of the packets given to the sender, each
      whole and in order, and the frames still in the queue hold exactly the rest. */
  lemma PacketsArriveInOrder(c: Config, s: Link, run: seq<Act>)
    requires Sane(c) && Fresh(s) && ValidRun(c, true, s, run)
    ensures var t := Final(c, true, s, run);
            && t.rx.rx <= t.given
            && AllWellFormed(c, t.tx.q) && FeedAll(c, true, t.rx, t.tx.q).rx == t.given
            && (t.tx.q == [] ==> t.rx.rx == t.given)
  {
    assert Invariant(c, s);
    RunStaysAhead(c, s, run);
    var t := Final(c, true, s, run);
    hide Final, ValidRun, D.Receive;
    FeedOnlyAdds(c, true, t.rx, t.tx.q);
  }

  /** In every run the last queued frame of a finished transmission is measured exactly: its first
      header pointer and its packets reach to where the search stops, and only idle octets follow. */
  lemma BackFrameIsMeasured(c: Config, s: Link, run: seq<Act>)
    requires Sane(c) && Fresh(s) && ValidRun(c, true, s, run)
    requires !Final(c, true, s, run).tx.open && Final(c, true, s, run).tx.q != []
    ensures var q := Final(c, true, s, run).tx.q;
            var b := q[|q| - 1];
            && WellFormed(c, b)
            && if b.pointer == NO_PACKET_START then Residue(c, b) == c.maxData
               else b.pointer < c.maxData && exists pkts :: LongLayout(c, b.data, b.pointer, pkts, Residue(c, b))
  {
    assert Invariant(c, s);
    RunStaysAhead(c, s, run);
    var q := Final(c, true, s, run).tx.q;
    hide Final, ValidRun, Ahead, PacketsEnd;
    var b := q[|q| - 1];
    if b.pointer != NO_PACKET_START {
      var pkts, to :| LongLayout(c, b.data, b.pointer, pkts, to);
      LongPacketsAreSeen(c, b, pkts, to);
    }
  }

  // ---------------------------------------------------------------------------------------
  // Frames of idle data
  // ---------------------------------------------------------------------------------------

  /** A frame of idle data counts as empty, and the next packet is laid into it; but its first header
      pointer still says that it holds idle data only. So of a packet that fits into it the call
      succeeds, no frame is added, and whatever the state of the receiver, it delivers nothing of it. */
  lemma IdleFrameSwallowsPacket(c: Config, tx: Tx, s: D.Rx, p: seq<byte>)
    requires Sane(c) && TxOk(c, tx) && AllWellFormed(c, tx.q) && !tx.open && 0 < |p| <= c.maxData
    requires tx.q != [] && tx.q[|tx.q| - 1].pointer == ONLY_IDLE
    ensures var (t, ok) := Transmit(c, tx, true, p);
            && ok && |t.q| == |tx.q| && p <= t.q[|t.q| - 1].data && AllWellFormed(c, t.q)
            && FeedAll(c, true, s, t.q) == FeedAll(c, true, s, tx.q)
  {
    hide D.Walk, D.Continue, D.Complete, FramesFor;
    var last := |tx.q| - 1;
    OneFrame(|p| + 0, c.maxData);
    var b := Stuffed(c, tx.q[last], 0, p);
    var q := tx.q[last := b];
    assert Residue(c, tx.q[last]) == 0 && FramesFor(|p| + 0, c.maxData) == 1;
    assert Transmit(c, tx, true, p) == Emit(c, tx.(q := q), p, 0, 0);
    assert p[..|p|] == p && b.data[..|p|] == p;
    assert q[..last] == tx.q[..last];
  }
}
