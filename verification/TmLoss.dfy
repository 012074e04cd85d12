/** TM extraction when frames are lost on the way. */
module TmLoss {
  import opened Octets
  import opened TmTypes
  import opened TmMux
  import opened TmFeed
  import opened TmRuns
  import opened TmService
  import D = TmDemux

  /** What a receiver has delivered beyond the first `n` packets. */
  function Since(s: D.Rx, n: nat): seq<seq<byte>> {
    if n <= |s.rx| then s.rx[n..] else []
  }

  /** Neither receiver has run out of room, both keep the same packet under way, and beyond the first
      `n1` and `n2` packets they have delivered the same. */
  ghost predicate Alike(t1: D.Rx, n1: nat, t2: D.Rx, n2: nat) {
    t1.loop == t2.loop && n1 <= |t1.rx| && n2 <= |t2.rx| && Since(t1, n1) == Since(t2, n2)
  }

  lemma AlikeThen(s1: D.Rx, n1: nat, s2: D.Rx, n2: nat, t1: D.Rx, t2: D.Rx)
    requires n1 <= |s1.rx| && n2 <= |s2.rx| && Since(s1, n1) == Since(s2, n2)
    requires s1.rx <= t1.rx && s2.rx <= t2.rx && Alike(t1, |s1.rx|, t2, |s2.rx|)
    ensures Alike(t1, n1, t2, n2)
  {
    assert t1.rx[n1..] == s1.rx[n1..] + t1.rx[|s1.rx|..];
    assert t2.rx[n2..] == s2.rx[n2..] + t2.rx[|s2.rx|..];
  }

  /** A walk that does not fill the receive queue takes the packet it stands on, if it ends in the
      frame. */
  lemma WalkTakes(c: Config, s: D.Rx, data: seq<byte>, at: nat, n: nat)
    requires Sane(c) && at < |data| && data[at] != IDLE && PacketLen(c, data[at..]) == Some(n) && at + n <= |data|
    requires |D.Walk(c, s, data, at).0.rx| < s.rxCap
    ensures 0 < n
    ensures var u := With(s, [data[at..at + n]]);
            D.Walk(c, s, data, at).0 == if at + n == |data| then u else D.Walk(c, u, data, at + n).0
  {
  }

  /** Elsewhere it stops, and what it leaves does not depend on the receiver. */
  lemma WalkStops(c: Config, s: D.Rx, data: seq<byte>, at: nat)
    requires at < |data|
    requires data[at] == IDLE || PacketLen(c, data[at..]).None? || at + PacketLen(c, data[at..]).value > |data|
    ensures D.Walk(c, s, data, at).0 == s.(loop := if data[at] == IDLE then D.Closed else
              D.Open(data[at..], if PacketLen(c, data[at..]).None? then 0 else PacketLen(c, data[at..]).value))
  {
  }

  /** A frame walked from the same offset does the same to any two receivers with room. */
  lemma {:induction false} WalkAlike(c: Config, s1: D.Rx, s2: D.Rx, data: seq<byte>, at: nat)
    requires Sane(c) && at < |data|
    requires |D.Walk(c, s1, data, at).0.rx| < s1.rxCap && |D.Walk(c, s2, data, at).0.rx| < s2.rxCap
    ensures Alike(D.Walk(c, s1, data, at).0, |s1.rx|, D.Walk(c, s2, data, at).0, |s2.rx|)
    decreases |data| - at
  {
    hide D.Walk, PacketLen, Sane;
    var len := PacketLen(c, data[at..]);
    if data[at] != IDLE && len.Some? && at + len.value <= |data| {
      var next, packet := at + len.value, data[at..at + len.value];
      WalkTakes(c, s1, data, at, len.value);
      WalkTakes(c, s2, data, at, len.value);
      var u1, u2 := With(s1, [packet]), With(s2, [packet]);
      assert Since(u1, |s1.rx|) == [packet] == Since(u2, |s2.rx|);
      if next < |data| {
        WalkAlike(c, u1, u2, data, next);
        WalkOnlyAdds(c, u1, data, next);
        WalkOnlyAdds(c, u2, data, next);
        AlikeThen(u1, |s1.rx|, u2, |s2.rx|, D.Walk(c, s1, data, at).0, D.Walk(c, s2, data, at).0);
      }
    } else {
      WalkStops(c, s1, data, at);
      WalkStops(c, s2, data, at);
    }
  }

  lemma CompleteAlike(c: Config, s1: D.Rx, s2: D.Rx, head: seq<byte>)
    requires s1.loop == s2.loop && |s1.rx| < s1.rxCap && |s2.rx| < s2.rxCap
    ensures var (t1, ok1) := D.Complete(c, s1, head);
            var (t2, ok2) := D.Complete(c, s2, head);
            ok1 && ok2 && s1.rx <= t1.rx && s2.rx <= t2.rx && Alike(t1, |s1.rx|, t2, |s2.rx|)
  {
  }

  lemma ContinueAlike(c: Config, s1: D.Rx, s2: D.Rx, data: seq<byte>)
    requires s1.loop == s2.loop && |s1.rx| < s1.rxCap && |s2.rx| < s2.rxCap
    ensures Alike(D.Continue(c, s1, data).0, |s1.rx|, D.Continue(c, s2, data).0, |s2.rx|)
  {
  }

  /** Receivers that keep the same packet under way go on alike. */
  lemma ReceiveAlike(c: Config, s1: D.Rx, s2: D.Rx, fdu: Fdu)
    requires Sane(c) && WellFormed(c, fdu) && s1.loop == s2.loop
    requires |D.Receive(c, s1, fdu).0.rx| < s1.rxCap && |D.Receive(c, s2, fdu).0.rx| < s2.rxCap
    ensures Alike(D.Receive(c, s1, fdu).0, |s1.rx|, D.Receive(c, s2, fdu).0, |s2.rx|)
  {
    ReceiveOnlyAdds(c, s1, fdu);
    ReceiveOnlyAdds(c, s2, fdu);
    if fdu.pointer == 0 {
      WalkAlike(c, s1, s2, fdu.data, 0);
    } else if fdu.pointer < c.maxData {
      var head := fdu.data[..fdu.pointer];
      CompleteAlike(c, s1, s2, head);
      var u1, u2 := D.Complete(c, s1, head).0, D.Complete(c, s2, head).0;
      ReceiveWalks(c, s1, fdu);
      ReceiveWalks(c, s2, fdu);
      hide D.Receive, D.Complete;
      WalkAlike(c, u1, u2, fdu.data, fdu.pointer);
      WalkOnlyAdds(c, u1, fdu.data, fdu.pointer);
      WalkOnlyAdds(c, u2, fdu.data, fdu.pointer);
      hide D.Walk;
      AlikeThen(u1, |s1.rx|, u2, |s2.rx|, D.Receive(c, s1, fdu).0, D.Receive(c, s2, fdu).0);
    } else if fdu.pointer == NO_PACKET_START {
      ContinueAlike(c, s1, s2, fdu.data);
    }
    hide D.Walk, D.Complete, D.Continue;
  }

  lemma {:induction false} FeedAlike(c: Config, s1: D.Rx, s2: D.Rx, q: seq<Fdu>)
    requires Sane(c) && AllWellFormed(c, q) && s1.loop == s2.loop
    requires |FeedAll(c, true, s1, q).rx| < s1.rxCap && |FeedAll(c, true, s2, q).rx| < s2.rxCap
    ensures Alike(FeedAll(c, true, s1, q), |s1.rx|, FeedAll(c, true, s2, q), |s2.rx|)
    decreases |q|
  {
    hide D.Receive;
    if q != [] {
      var front, last := q[..|q| - 1], q[|q| - 1];
      var u1, u2 := FeedAll(c, true, s1, front), FeedAll(c, true, s2, front);
      FeedOnlyAdds(c, true, s1, front);
      FeedOnlyAdds(c, true, s2, front);
      ReceiveOnlyAdds(c, u1, last);
      ReceiveOnlyAdds(c, u2, last);
      FeedAlike(c, s1, s2, front);
      ReceiveAlike(c, u1, u2, last);
      AlikeThen(u1, |s1.rx|, u2, |s2.rx|, FeedAll(c, true, s1, q), FeedAll(c, true, s2, q));
    }
  }

  /** Beyond what the octets in front of it complete, a frame in which a packet starts does the same to
      any two receivers. */
  lemma PointerFrameAlike(c: Config, missed: D.Rx, whole: D.Rx, fdu: Fdu)
    requires Sane(c) && WellFormed(c, fdu) && fdu.pointer < c.maxData
    requires |D.Receive(c, missed, fdu).0.rx| < missed.rxCap && |D.Receive(c, whole, fdu).0.rx| < whole.rxCap
    ensures var n1, n2 := |BeforeWalk(c, missed, fdu).rx|, |BeforeWalk(c, whole, fdu).rx|;
            && n1 <= |missed.rx| + 1
            && Alike(D.Receive(c, missed, fdu).0, n1, D.Receive(c, whole, fdu).0, n2)
  {
    hide D.Walk, D.Complete, D.Receive, BeforeWalk;
    ReceiveWalks(c, missed, fdu);
    ReceiveWalks(c, whole, fdu);
    WalkAlike(c, BeforeWalk(c, missed, fdu), BeforeWalk(c, whole, fdu), fdu.data, fdu.pointer);
    AtMostOneCompleted(c, missed, fdu);
  }

  lemma AtMostOneCompleted(c: Config, s: D.Rx, fdu: Fdu)
    requires WellFormed(c, fdu)
    ensures |BeforeWalk(c, s, fdu).rx| <= |s.rx| + 1
  {
  }

  /** A first header pointer resynchronises: whatever a receiver has missed or misread, from the first
      frame in which a packet starts it delivers, with all the frames that follow, exactly the packets
      that a receiver delivers which missed nothing, and ends in the same state. Of what came before it
      completes at most one packet. */
  lemma PointerResynchronises(c: Config, missed: D.Rx, whole: D.Rx, fdu: Fdu, q: seq<Fdu>)
    requires Sane(c) && WellFormed(c, fdu) && fdu.pointer < c.maxData && AllWellFormed(c, [fdu] + q)
    requires |FeedAll(c, true, missed, [fdu] + q).rx| < missed.rxCap
    requires |FeedAll(c, true, whole, [fdu] + q).rx| < whole.rxCap
    ensures var n1, n2 := |BeforeWalk(c, missed, fdu).rx|, |BeforeWalk(c, whole, fdu).rx|;
            && n1 <= |missed.rx| + 1
            && Alike(FeedAll(c, true, missed, [fdu] + q), n1, FeedAll(c, true, whole, [fdu] + q), n2)
  {
    hide D.Receive, D.Walk, D.Complete, FeedAll, BeforeWalk;
    var t1, t2 := D.Receive(c, missed, fdu).0, D.Receive(c, whole, fdu).0;
    assert ([fdu] + q)[0] == fdu && ([fdu] + q)[1..] == q;
    FeedFirst(c, true, missed, [fdu] + q);
    FeedFirst(c, true, whole, [fdu] + q);
    FeedOnlyAdds(c, true, t1, q);
    FeedOnlyAdds(c, true, t2, q);
    ReceiveOnlyAdds(c, missed, fdu);
    ReceiveOnlyAdds(c, whole, fdu);
    PointerFrameAlike(c, missed, whole, fdu);
    FeedAlike(c, t1, t2, q);
    AlikeThen(t1, |BeforeWalk(c, missed, fdu).rx|, t2, |BeforeWalk(c, whole, fdu).rx|,
              FeedAll(c, true, t1, q), FeedAll(c, true, t2, q));
  }

  // ---------------------------------------------------------------------------------------
  // Runs with losses
  // ---------------------------------------------------------------------------------------

  /** The frames that leave the sender's queue in a run. */
  ghost function Passed(c: Config, s: Link, run: seq<Act>): seq<Fdu>
    requires Sane(c) && ValidRun(c, true, s, run)
    decreases |run|
  {
    if run == [] then []
    else (if run[0].FramePasses? then [s.tx.q[0]] else []) + Passed(c, After(c, true, s, run[0]), run[1..])
  }

  lemma {:induction false} PassedFeedReceiver(c: Config, s: Link, run: seq<Act>)
    requires Sane(c) && ValidRun(c, true, s, run)
    ensures AllWellFormed(c, Passed(c, s, run))
    ensures Final(c, true, s, run).rx == FeedAll(c, true, s.rx, Passed(c, s, run))
    decreases |run|
  {
    hide D.Receive, Transmit, Handled, TxOk;
    if run != [] {
      var t := After(c, true, s, run[0]);
      PassedFeedReceiver(c, t, run[1..]);
      var rest := Passed(c, t, run[1..]);
      if run[0].FramePasses? {
        var fs := [s.tx.q[0]] + rest;
        assert fs[0] == s.tx.q[0] && fs[1..] == rest;
        assert AllWellFormed(c, fs);
        FeedFirst(c, true, s.rx, fs);
      } else {
        assert [] + rest == rest;
      }
    }
  }

  lemma {:induction false} RunSplits(c: Config, s: Link, run: seq<Act>, more: seq<Act>)
    requires Sane(c) && ValidRun(c, true, s, run + more)
    ensures ValidRun(c, true, s, run) && ValidRun(c, true, Final(c, true, s, run), more)
    ensures Final(c, true, Final(c, true, s, run), more) == Final(c, true, s, run + more)
    decreases |run|
  {
    hide After, Possible;
    if run == [] {
      assert run + more == more;
    } else {
      assert (run + more)[0] == run[0] && (run + more)[1..] == run[1..] + more;
      RunSplits(c, After(c, true, s, run[0]), run[1..], more);
    }
  }

  /** A run in which anything may have happened to the frames of the first part: `missed` is what that
      made of the receiver. If none of the frames of the second part is lost, and a packet starts in the
      first of them, then of those frames the receiver delivers, after at most one leftover packet, a
      stretch of the packets given to the sender, each whole, in order and with no gap. When the queue
      is empty the stretch reaches to the last packet given. */
  lemma ResynchronisedRun(c: Config, s: Link, run: seq<Act>, more: seq<Act>, missed: D.Rx)
      returns (n1: nat, n2: nat)
    requires Sane(c) && Fresh(s) && ValidRun(c, true, s, run + more)
    requires ValidRun(c, true, s, run) && ValidRun(c, true, Final(c, true, s, run), more)
    requires var q := Passed(c, Final(c, true, s, run), more);
             && q != [] && AllWellFormed(c, q) && q[0].pointer < c.maxData
             && |FeedAll(c, true, missed, q).rx| < missed.rxCap
    requires |Final(c, true, s, run + more).given| < s.rx.rxCap
    ensures var t := Final(c, true, s, run + more);
            var r := FeedAll(c, true, missed, Passed(c, Final(c, true, s, run), more));
            && n1 <= |r.rx| && n1 <= |missed.rx| + 1 && n2 <= |t.rx.rx| <= |t.given|
            && r.rx[n1..] == t.given[n2..|t.rx.rx|] && r.loop == t.rx.loop
            && (t.tx.q == [] ==> r.rx[n1..] == t.given[n2..])
  {
    hide After, Enabled, D.Receive, BeforeWalk, FeedAll;
    RunSplits(c, s, run, more);
    PacketsArriveInOrder(c, s, run + more);
    var mid := Final(c, true, s, run);
    PassedFeedReceiver(c, s, run + more);
    FeedOnlyAdds(c, true, s.rx, Passed(c, s, run + more));
    PassedFeedReceiver(c, s, run);
    FeedOnlyAdds(c, true, s.rx, Passed(c, s, run));
    PassedFeedReceiver(c, mid, more);
    hide Passed, Final, ValidRun;
    var q := Passed(c, mid, more);
    assert [q[0]] + q[1..] == q;
    PointerResynchronises(c, missed, mid.rx, q[0], q[1..]);
    n1, n2 := |BeforeWalk(c, missed, q[0]).rx|, |BeforeWalk(c, mid.rx, q[0]).rx|;
    var t := Final(c, true, s, run + more);
    assert t.given[n2..|t.rx.rx|] == t.rx.rx[n2..];
    assert t.given[n2..|t.given|] == t.given[n2..];
  }
}
