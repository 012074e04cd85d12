/** A receiver fed a whole queue of frame data units. */
module TmFeed {
  import opened Octets
  import opened TmTypes
  import D = TmDemux

  lemma {:induction false} WalkOnlyAdds(c: Config, s: D.Rx, data: seq<byte>, at: nat)
    requires at < |data|
    ensures var t := D.Walk(c, s, data, at).0; s.rx <= t.rx && t.rxCap == s.rxCap
    decreases |data| - at
  {
    var len := PacketLen(c, data[at..]);
    if data[at] != IDLE && len.Some? && 0 < len.value && at + len.value < |data| && |s.rx| < s.rxCap {
      WalkOnlyAdds(c, D.Enqueue(s, data[at..at + len.value]).0, data, at + len.value);
    }
  }

  lemma ReceiveOnlyAdds(c: Config, s: D.Rx, fdu: Fdu)
    requires WellFormed(c, fdu) && c.maxData > 0
    ensures var t := D.Receive(c, s, fdu).0; s.rx <= t.rx && t.rxCap == s.rxCap
  {
    if fdu.pointer < c.maxData {
      var t := if fdu.pointer == 0 then s else D.Complete(c, s, fdu.data[..fdu.pointer]).0;
      assert s.rx <= t.rx && t.rxCap == s.rxCap;
      WalkOnlyAdds(c, t, fdu.data, fdu.pointer);
      WalkOnlyAdds(c, s, fdu.data, 0);
    }
    hide D.Walk;
  }

  lemma TakeOnlyAdds(c: Config, stuffing: bool, s: D.Rx, fdu: Fdu)
    requires WellFormed(c, fdu) && c.maxData > 0
    ensures var t := D.Take(c, stuffing, s, fdu).0; s.rx <= t.rx && t.rxCap == s.rxCap
  {
    if stuffing {
      ReceiveOnlyAdds(c, s, fdu);
      hide D.Receive;
    }
  }

  ghost predicate AllWellFormed(c: Config, q: seq<Fdu>) {
    forall i :: 0 <= i < |q| ==> WellFormed(c, q[i])
  }

  /** The receiver after all the frames of a queue, in order. */
  function FeedAll(c: Config, stuffing: bool, s: D.Rx, q: seq<Fdu>): D.Rx
    requires AllWellFormed(c, q) && c.maxData > 0
  {
    if q == [] then s else D.Take(c, stuffing, FeedAll(c, stuffing, s, q[..|q| - 1]), q[|q| - 1]).0
  }

  lemma FeedOneMore(c: Config, stuffing: bool, s: D.Rx, q: seq<Fdu>, fdu: Fdu)
    requires AllWellFormed(c, q) && WellFormed(c, fdu) && c.maxData > 0
    ensures AllWellFormed(c, q + [fdu])
    ensures FeedAll(c, stuffing, s, q + [fdu]) == D.Take(c, stuffing, FeedAll(c, stuffing, s, q), fdu).0
  {
    assert (q + [fdu])[..|q|] == q;
  }

  /** Taking the first frame from the queue and feeding it changes nothing in the end. */
  lemma {:induction false} FeedFirst(c: Config, stuffing: bool, s: D.Rx, q: seq<Fdu>)
    requires AllWellFormed(c, q) && c.maxData > 0 && q != []
    ensures AllWellFormed(c, q[1..])
    ensures FeedAll(c, stuffing, D.Take(c, stuffing, s, q[0]).0, q[1..]) == FeedAll(c, stuffing, s, q)
    decreases |q|
  {
    hide D.Take;
    if |q| > 1 {
      var front := q[..|q| - 1];
      FeedFirst(c, stuffing, s, front);
      assert q[1..][..|q| - 2] == front[1..];
    } else {
      assert q[..0] == [];
    }
  }

  lemma {:induction false} FeedOnlyAdds(c: Config, stuffing: bool, s: D.Rx, q: seq<Fdu>)
    requires AllWellFormed(c, q) && c.maxData > 0
    ensures s.rx <= FeedAll(c, stuffing, s, q).rx && FeedAll(c, stuffing, s, q).rxCap == s.rxCap
    decreases |q|
  {
    hide D.Take;
    if q != [] {
      FeedOnlyAdds(c, stuffing, s, q[..|q| - 1]);
      TakeOnlyAdds(c, stuffing, FeedAll(c, stuffing, s, q[..|q| - 1]), q[|q| - 1]);
    }
  }
}
