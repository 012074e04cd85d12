/** TM runs without end: the receive queue is of any size, and the receiver's user takes packets from it. */
module TmStream {
  import opened Octets
  import opened TmTypes
  import opened TmFeed
  import opened TmMux
  import D = TmDemux
  import R = TmRuns
  import TmService
  import TmPlain

  /** A link, and the packets the receiver's user has taken. */
  datatype Stream = Stream(link: R.Link, taken: seq<seq<byte>>)

  datatype Act = Does(act: R.Act) | PacketTaken

  /** Never more packets are given than have been taken and fit the receive queue. */
  ghost predicate Enabled(c: Config, stuffing: bool, s: Stream, a: Act) {
    match a
    case Does(act) =>
      && R.Possible(c, stuffing, s.link, act)
      && (act.Call? ==> |s.link.given| < |s.taken| + s.link.rx.rxCap)
    case PacketTaken => s.link.rx.rx != []
  }

  ghost function After(c: Config, stuffing: bool, s: Stream, a: Act): Stream
    requires Sane(c) && Enabled(c, stuffing, s, a)
  {
    match a
    case Does(act) => s.(link := R.After(c, stuffing, s.link, act))
    case PacketTaken =>
      var rx := s.link.rx;
      Stream(s.link.(rx := rx.(rx := rx.rx[1..])), s.taken + [rx.rx[0]])
  }

  ghost predicate ValidRun(c: Config, stuffing: bool, s: Stream, run: seq<Act>)
    requires Sane(c)
    decreases |run|
  {
    run == [] || (Enabled(c, stuffing, s, run[0]) && ValidRun(c, stuffing, After(c, stuffing, s, run[0]), run[1..]))
  }

  ghost function Final(c: Config, stuffing: bool, s: Stream, run: seq<Act>): Stream
    requires Sane(c) && ValidRun(c, stuffing, s, run)
    decreases |run|
  {
    if run == [] then s else Final(c, stuffing, After(c, stuffing, s, run[0]), run[1..])
  }

  // ---------------------------------------------------------------------------------------
  // A receiver whose packets have been taken, and one with room for them all
  // ---------------------------------------------------------------------------------------

  /** The receiver as if the packets `before` had not been taken and its queue held `cap` packets. */
  function Widened(before: seq<seq<byte>>, cap: nat, r: D.Rx): D.Rx {
    D.Rx(r.loop, before + r.rx, cap)
  }

  /** What the wide receiver has fits the narrow one. */
  predicate Fits(before: seq<seq<byte>>, cap: nat, r: D.Rx, wide: D.Rx) {
    |wide.rx| <= |before| + r.rxCap <= cap
  }

  lemma EnqueueWidened(before: seq<seq<byte>>, cap: nat, r: D.Rx, p: seq<byte>)
    requires Fits(before, cap, r, D.Enqueue(Widened(before, cap, r), p).0)
    ensures D.Enqueue(Widened(before, cap, r), p).0 == Widened(before, cap, D.Enqueue(r, p).0)
    ensures D.Enqueue(Widened(before, cap, r), p).1 == D.Enqueue(r, p).1
  {
    assert before + r.rx + [p] == before + (r.rx + [p]);
  }

  lemma {:induction false} WalkWidened(c: Config, before: seq<seq<byte>>, cap: nat, r: D.Rx, data: seq<byte>, at: nat)
    requires at < |data| && Fits(before, cap, r, D.Walk(c, Widened(before, cap, r), data, at).0)
    ensures D.Walk(c, Widened(before, cap, r), data, at).0 == Widened(before, cap, D.Walk(c, r, data, at).0)
    decreases |data| - at
  {
    hide PacketLen;
    var wide := Widened(before, cap, r);
    var len := PacketLen(c, data[at..]);
    if data[at] != IDLE && len.Some? && at + len.value <= |data| {
      var next, packet := at + len.value, data[at..at + len.value];
      var u := D.Enqueue(wide, packet).0;
      if D.Enqueue(wide, packet).1 && len.value > 0 && next < |data| {
        WalkOnlyAdds(c, u, data, next);
        EnqueueWidened(before, cap, r, packet);
        WalkWidened(c, before, cap, D.Enqueue(r, packet).0, data, next);
      } else {
        EnqueueWidened(before, cap, r, packet);
      }
    }
  }

  lemma CompleteWidened(c: Config, before: seq<seq<byte>>, cap: nat, r: D.Rx, head: seq<byte>)
    requires Fits(before, cap, r, D.Complete(c, Widened(before, cap, r), head).0)
    ensures D.Complete(c, Widened(before, cap, r), head).0 == Widened(before, cap, D.Complete(c, r, head).0)
    ensures D.Complete(c, Widened(before, cap, r), head).1 == D.Complete(c, r, head).1
  {
    hide PacketLen;
    if r.loop.Open? && |D.Complete(c, Widened(before, cap, r), head).0.rx| <= |before| + r.rxCap {
      var longer := r.loop.octets + head;
      assert before + r.rx + [longer] == before + (r.rx + [longer]);
    }
  }

  lemma ReceiveWidened(c: Config, before: seq<seq<byte>>, cap: nat, r: D.Rx, fdu: Fdu)
    requires WellFormed(c, fdu) && 0 < c.maxData
    requires Fits(before, cap, r, D.Receive(c, Widened(before, cap, r), fdu).0)
    ensures D.Receive(c, Widened(before, cap, r), fdu).0 == Widened(before, cap, D.Receive(c, r, fdu).0)
  {
    hide PacketLen, D.Walk;
    var wide := Widened(before, cap, r);
    if fdu.pointer == NO_PACKET_START {
      if r.loop.Open? {
        var longer := r.loop.octets + fdu.data;
        assert before + r.rx + [longer] == before + (r.rx + [longer]);
      }
    } else if fdu.pointer == 0 {
      WalkWidened(c, before, cap, r, fdu.data, 0);
    } else if fdu.pointer != ONLY_IDLE {
      var head := fdu.data[..fdu.pointer];
      var u := D.Complete(c, wide, head).0;
      WalkOnlyAdds(c, u, fdu.data, fdu.pointer);
      CompleteWidened(c, before, cap, r, head);
      hide D.Complete;
      if D.Complete(c, r, head).1 {
        CompleteKeepsBound(c, r, head);
        WalkWidened(c, before, cap, D.Complete(c, r, head).0, fdu.data, fdu.pointer);
      }
    }
  }

  lemma CompleteKeepsBound(c: Config, r: D.Rx, head: seq<byte>)
    ensures D.Complete(c, r, head).0.rxCap == r.rxCap
  {
  }

  lemma PlainWidened(c: Config, before: seq<seq<byte>>, cap: nat, r: D.Rx, fdu: Fdu)
    requires WellFormed(c, fdu) && 0 < c.maxData
    requires Fits(before, cap, r, D.ReceivePlain(c, Widened(before, cap, r), fdu).0)
    ensures D.ReceivePlain(c, Widened(before, cap, r), fdu).0 == Widened(before, cap, D.ReceivePlain(c, r, fdu).0)
  {
    hide PacketLen;
    forall p: seq<byte> ensures before + r.rx + [p] == before + (r.rx + [p]) {
    }
  }

  /** Feeding frames to either receiver is the same, as long as what there is fits. */
  lemma {:induction false} FeedWidened(c: Config, stuffing: bool, before: seq<seq<byte>>, cap: nat, r: D.Rx,
                                       q: seq<Fdu>)
    requires AllWellFormed(c, q) && 0 < c.maxData
    requires Fits(before, cap, r, FeedAll(c, stuffing, Widened(before, cap, r), q))
    ensures FeedAll(c, stuffing, Widened(before, cap, r), q) == Widened(before, cap, FeedAll(c, stuffing, r, q))
    decreases |q|
  {
    hide D.Receive, D.ReceivePlain;
    if q != [] {
      var front, last := q[..|q| - 1], q[|q| - 1];
      var wide := FeedAll(c, stuffing, Widened(before, cap, r), front);
      TakeOnlyAdds(c, stuffing, wide, last);
      FeedOnlyAdds(c, stuffing, r, front);
      FeedWidened(c, stuffing, before, cap, r, front);
      var s := FeedAll(c, stuffing, r, front);
      if stuffing {
        ReceiveWidened(c, before, cap, s, last);
      } else {
        PlainWidened(c, before, cap, s, last);
      }
    }
  }

  // ---------------------------------------------------------------------------------------
  // Every run is a run of a link with room for all packets
  // ---------------------------------------------------------------------------------------

  ghost predicate Suits(c: Config, stuffing: bool) {
    Sane(c) && (!stuffing ==> TmPlain.Suits(c))
  }

  function Wide(s: Stream, cap: nat): R.Link {
    s.link.(rx := Widened(s.taken, cap, s.link.rx))
  }

  lemma {:induction false} OneMore(c: Config, stuffing: bool, s: R.Link, run: seq<R.Act>, a: R.Act)
    requires Sane(c) && R.ValidRun(c, stuffing, s, run) && R.Enabled(c, stuffing, R.Final(c, stuffing, s, run), a)
    ensures R.ValidRun(c, stuffing, s, run + [a])
    ensures R.Final(c, stuffing, s, run + [a]) == R.After(c, stuffing, R.Final(c, stuffing, s, run), a)
    decreases |run|
  {
    hide R.After, R.Possible;
    if run == [] {
      assert run + [a] == [a] && [a][1..] == [];
      assert R.Final(c, stuffing, R.After(c, stuffing, s, a), []) == R.After(c, stuffing, s, a);
    } else {
      OneMore(c, stuffing, R.After(c, stuffing, s, run[0]), run[1..], a);
      assert (run + [a])[1..] == run[1..] + [a];
    }
  }

  lemma Ordered(c: Config, stuffing: bool, s: R.Link, run: seq<R.Act>)
    requires Suits(c, stuffing) && R.Fresh(s) && R.ValidRun(c, stuffing, s, run)
    ensures var t := R.Final(c, stuffing, s, run);
            && t.rx.rx <= t.given && AllWellFormed(c, t.tx.q) && FeedAll(c, stuffing, t.rx, t.tx.q).rx == t.given
  {
    hide R.Final, R.ValidRun, FeedAll;
    if stuffing {
      TmService.PacketsArriveInOrder(c, s, run);
    } else {
      TmPlain.PacketsArriveInOrder(c, s, run);
    }
  }

  /** The run `wide` of the link `w0` leads to the widened stream, and the stream has kept within its
      queue. */
  ghost predicate Mirrors(c: Config, stuffing: bool, w0: R.Link, wide: seq<R.Act>, s: Stream, cap: nat)
    requires Sane(c)
  {
    && R.ValidRun(c, stuffing, w0, wide) && R.Final(c, stuffing, w0, wide) == Wide(s, cap)
    && |s.taken + s.link.rx.rx| <= |s.link.given| <= |s.taken| + s.link.rx.rxCap <= cap
  }

  lemma ActIsMirrored(c: Config, stuffing: bool, w0: R.Link, wide: seq<R.Act>, s: Stream, cap: nat, a: R.Act)
    requires Suits(c, stuffing) && R.Fresh(w0) && Mirrors(c, stuffing, w0, wide, s, cap)
    requires Enabled(c, stuffing, s, Does(a)) && |s.link.given| < cap
    ensures Mirrors(c, stuffing, w0, wide + [a], After(c, stuffing, s, Does(a)), cap)
  {
    hide D.Receive, D.ReceivePlain, FeedAll, Transmit, TransmitPlain, R.Final, R.ValidRun, R.Handled, TxOk;
    OneMore(c, stuffing, w0, wide, a);
    Ordered(c, stuffing, w0, wide + [a]);
    var w := R.After(c, stuffing, Wide(s, cap), a);
    assert w.rx.rx <= w.given;
    if a.FramePasses? {
      var fdu := s.link.tx.q[0];
      if stuffing {
        ReceiveWidened(c, s.taken, cap, s.link.rx, fdu);
      } else {
        PlainWidened(c, s.taken, cap, s.link.rx, fdu);
      }
      TakeOnlyAdds(c, stuffing, s.link.rx, fdu);
    }
  }

  lemma {:induction false} RunIsMirrored(c: Config, stuffing: bool, w0: R.Link, wide: seq<R.Act>, s: Stream, cap: nat,
                                         run: seq<Act>)
      returns (mirror: seq<R.Act>)
    requires Suits(c, stuffing) && R.Fresh(w0) && Mirrors(c, stuffing, w0, wide, s, cap)
    requires ValidRun(c, stuffing, s, run) && |s.link.given| + s.link.rx.rxCap + |run| <= cap
    ensures Mirrors(c, stuffing, w0, mirror, Final(c, stuffing, s, run), cap)
    decreases |run|
  {
    mirror := wide;
    if run != [] {
      var t := After(c, stuffing, s, run[0]);
      match run[0] {
        case Does(a) =>
          ActIsMirrored(c, stuffing, w0, wide, s, cap, a);
          ActCounts(c, stuffing, s, a);
          mirror := RunIsMirrored(c, stuffing, w0, wide + [a], t, cap, run[1..]);
        case PacketTaken =>
          assert s.taken + s.link.rx.rx == t.taken + t.link.rx.rx;
          mirror := RunIsMirrored(c, stuffing, w0, wide, t, cap, run[1..]);
      }
    }
  }

  lemma ActCounts(c: Config, stuffing: bool, s: Stream, a: R.Act)
    requires Sane(c) && Enabled(c, stuffing, s, Does(a))
    ensures var t := After(c, stuffing, s, Does(a)).link;
            t.rx.rxCap == s.link.rx.rxCap && |t.given| <= |s.link.given| + 1
  {
    hide D.Receive, D.ReceivePlain, Transmit, TransmitPlain, R.Handled, TxOk;
    if a.FramePasses? {
      TakeOnlyAdds(c, stuffing, s.link.rx, s.link.tx.q[0]);
    }
  }

  /** However long the run and however small the receive queue: what the user has taken and what is
      still in his queue are a prefix of the packets given to the sender, and the queued frames hold
      exactly the rest. */
  lemma PacketsStreamInOrder(c: Config, stuffing: bool, s: Stream, run: seq<Act>)
    requires Suits(c, stuffing) && R.Fresh(s.link) && s.taken == [] && ValidRun(c, stuffing, s, run)
    ensures var t := Final(c, stuffing, s, run);
            && t.taken + t.link.rx.rx <= t.link.given && |t.link.rx.rx| <= t.link.rx.rxCap
            && AllWellFormed(c, t.link.tx.q)
            && t.taken + FeedAll(c, stuffing, t.link.rx, t.link.tx.q).rx == t.link.given
  {
    hide Enabled, After, R.Possible, R.After, FeedAll;
    var cap := s.link.rx.rxCap + |run|;
    var w0 := Wide(s, cap);
    assert R.ValidRun(c, stuffing, w0, []) && R.Final(c, stuffing, w0, []) == w0;
    var mirror := RunIsMirrored(c, stuffing, w0, [], s, cap, run);
    hide R.ValidRun, R.Final, ValidRun, Final;
    var t := Final(c, stuffing, s, run);
    Ordered(c, stuffing, w0, mirror);
    FeedWidened(c, stuffing, t.taken, cap, t.link.rx, t.link.tx.q);
  }
}
