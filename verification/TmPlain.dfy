/** TM packets with stuffing off, end to end: every packet travels in frames of its own. */
module TmPlain {
  import opened Octets
  import opened TmTypes
  import opened TmMux
  import opened TmFeed
  import opened TmRuns
  import D = TmDemux

  /** The receiver has the first `off` octets of the packet and knows its length. */
  predicate Under(s: D.Rx, p: seq<byte>, off: nat) {
    0 < off < |p| && s.loop == D.Open(p[..off], |p|)
  }

  /** What the receiver will have once the whole queue has reached it. */
  ghost predicate Ahead(c: Config, s: D.Rx, q: seq<Fdu>, given: seq<seq<byte>>, p: seq<byte>, off: nat) {
    && AllWellFormed(c, q) && c.maxData > 0
    && FeedAll(c, false, s, q).rx == given
    && (off > 0 ==> Under(FeedAll(c, false, s, q), p, off))
  }

  /** The mission: frames long enough to tell a packet's length from its first one. */
  ghost predicate Suits(c: Config) {
    Sane(c) && c.need <= c.maxData
  }

  lemma FrameArrives(c: Config, s: D.Rx, p: seq<byte>, off: nat)
    requires Suits(c) && PlainPacket(c, p) && |s.rx| < s.rxCap && off < |p| && (off > 0 ==> Under(s, p, off))
    ensures var fdu := NextFdu(c, p, |p| - off);
            var t := D.ReceivePlain(c, s, fdu).0;
            && WellFormed(c, fdu)
            && if |p| - off <= c.maxData then t == s.(loop := D.Closed, rx := s.rx + [p])
               else Under(t, p, off + c.maxData) && t.rx == s.rx && t.rxCap == s.rxCap
  {
    var rest := |p| - off;
    var fdu := NextFdu(c, p, rest);
    var bytes := Min(c.maxData, rest);
    assert fdu.data[..bytes] == p[off..off + bytes];
    if off == 0 {
      assert p[0..bytes] == p[..bytes];
      if rest <= c.maxData {
        assert p[..bytes] == p && p <= fdu.data;
      } else {
        assert fdu.data == p[..c.maxData];
      }
      BeginningTellsLength(c, p, fdu.data);
    } else {
      assert s.loop.octets + fdu.data[..bytes] == p[..off + bytes];
      assert bytes == c.maxData ==> fdu.data[..bytes] == fdu.data;
      if rest <= c.maxData { assert p[..off + bytes] == p; }
    }
  }

  ghost predicate Carried(c: Config, s: D.Rx, given: seq<seq<byte>>, p: seq<byte>, tx: Tx, ok: bool) {
    if ok then !tx.open && tx.buffered == 0 && Ahead(c, s, tx.q, given + [p], p, 0)
    else tx.open && tx.buffered < |p| && Ahead(c, s, tx.q, given, p, tx.buffered)
  }

  lemma {:induction false} EmitCarries(c: Config, s: D.Rx, given: seq<seq<byte>>, tx: Tx, p: seq<byte>,
                                       remaining: nat, n: nat)
    requires Suits(c) && PlainPacket(c, p) && |given| < s.rxCap && 0 < remaining <= |p|
        && n == FramesFor(remaining, c.maxData)
    requires Ahead(c, s, tx.q, given, p, |p| - remaining)
    ensures var (t, ok) := Emit(c, tx, p, remaining, n); Carried(c, s, given, p, t, ok)
    decreases n
  {
    hide NextFdu, FramesFor, D.ReceivePlain, FeedAll, PlainPacket;
    OneFrame(remaining, c.maxData);
    if |tx.q| < tx.cap {
      FeedOnlyAdds(c, false, s, tx.q);
      FrameArrives(c, FeedAll(c, false, s, tx.q), p, |p| - remaining);
      FeedOneMore(c, false, s, tx.q, NextFdu(c, p, remaining));
      var tx' := tx.(q := tx.q + [NextFdu(c, p, remaining)]);
      if remaining <= c.maxData {
        assert Emit(c, tx, p, remaining, n) == (tx'.(open := false, buffered := 0), true);
      } else {
        OneFrameLess(remaining, c.maxData);
        EmitCarries(c, s, given, tx', p, remaining - c.maxData, n - 1);
      }
    }
  }

  // ---------------------------------------------------------------------------------------
  // Runs
  // ---------------------------------------------------------------------------------------

  ghost predicate Invariant(c: Config, s: Link) {
    && Ahead(c, s.rx, s.tx.q, s.given, s.current, s.tx.buffered)
    && (if s.tx.open then s.tx.buffered < |s.current| else s.tx.buffered == 0)
  }

  lemma ActStaysAhead(c: Config, s: Link, a: Act)
    requires Suits(c) && Invariant(c, s) && Enabled(c, false, s, a)
    ensures Invariant(c, After(c, false, s, a))
  {
    hide D.ReceivePlain, FeedAll, Emit;
    match a {
      case Call(p, _) =>
        var remaining := |p| - s.tx.buffered;
        EmitCarries(c, s.rx, s.given, s.tx, p, remaining, FramesFor(remaining, c.maxData));
      case FramePasses => FeedFirst(c, false, s.rx, s.tx.q);
    }
  }

  lemma {:induction false} RunStaysAhead(c: Config, s: Link, run: seq<Act>)
    requires Suits(c) && Invariant(c, s) && ValidRun(c, false, s, run)
    ensures Invariant(c, Final(c, false, s, run))
    decreases |run|
  {
    hide After, Invariant;
    if run != [] {
      ActStaysAhead(c, s, run[0]);
      RunStaysAhead(c, After(c, false, s, run[0]), run[1..]);
    }
  }

  /** The receiver has a prefix of the packets given to the sender, and the frames still in the queue
      hold exactly the rest; packets may begin with the idle octet and be shorter than a frame header
      here. */
  lemma PacketsArriveInOrder(c: Config, s: Link, run: seq<Act>)
    requires Suits(c) && Fresh(s) && ValidRun(c, false, s, run)
    ensures var t := Final(c, false, s, run);
            && t.rx.rx <= t.given
            && AllWellFormed(c, t.tx.q) && FeedAll(c, false, t.rx, t.tx.q).rx == t.given
            && (t.tx.q == [] ==> t.rx.rx == t.given)
  {
    assert Invariant(c, s);
    RunStaysAhead(c, s, run);
    var t := Final(c, false, s, run);
    hide Final, ValidRun, D.ReceivePlain;
    FeedOnlyAdds(c, false, t.rx, t.tx.q);
  }

  /** Frames too short to tell the length: a packet that does not fit its first frame is then lost
      whatever its frames carry; all of them leave the receiver as it was. */
  lemma ShortFramesLosePackets(c: Config, s: D.Rx, p: seq<byte>)
    requires Sane(c) && PlainPacket(c, p) && c.maxData < c.need && s.loop == D.Closed
    ensures AllWellFormed(c, FramesOf(c, p, |p|)) && FeedAll(c, false, s, FramesOf(c, p, |p|)) == s
  {
    ShortFramesIgnored(c, s, p, |p|);
  }

  lemma {:induction false} ShortFramesIgnored(c: Config, s: D.Rx, p: seq<byte>, remaining: nat)
    requires Sane(c) && PlainPacket(c, p) && c.maxData < c.need && s.loop == D.Closed && remaining <= |p|
    ensures AllWellFormed(c, FramesOf(c, p, remaining)) && FeedAll(c, false, s, FramesOf(c, p, remaining)) == s
    decreases remaining
  {
    if remaining > 0 {
      var fdu := NextFdu(c, p, remaining);
      var rest := FramesOf(c, p, remaining - Min(c.maxData, remaining));
      ShortFramesIgnored(c, s, p, remaining - Min(c.maxData, remaining));
      assert WellFormed(c, fdu) && D.Take(c, false, s, fdu).0 == s;
      hide NextFdu, D.ReceivePlain;
      var fs := [fdu] + rest;
      assert FramesOf(c, p, remaining) == fs && fs[0] == fdu && fs[1..] == rest;
      FeedFirst(c, false, s, fs);
    }
  }
}
