/** TM over a channel of octets: what is under way are the packed frames, and the channel may hit them
    with bursts of bit errors. */
module TmChannel {
  import opened Octets
  import opened TmTypes
  import opened TmFeed
  import Crc
  import D = TmDemux
  import TF = TmFrame
  import RX = TmReceiver
  import ST = TmStream
  import SP = TmSplice

  /** A frame to be sent: its header fields, its operational control field, and its data. */
  datatype Sent = Sent(p: TF.Primary, sec: TF.Secondary, ocf: seq<byte>, fdu: Fdu)

  /** A mission with check values, whose frames hold what the multiplexer puts into them. */
  predicate Suits(c: Config, m: TF.Mission) {
    m.hasCrc && m.maxData == c.maxData && 0 < c.maxData < ONLY_IDLE
  }

  ghost predicate Sendable(c: Config, m: TF.Mission, f: Sent) {
    TF.Laid(m, f.p, f.sec, f.ocf) && TF.Fits(f.p) && WellFormed(c, f.fdu)
  }

  ghost function Packed(c: Config, m: TF.Mission, f: Sent): seq<byte>
    requires Suits(c, m) && Sendable(c, m, f)
  {
    TF.Packed(m, f.p, f.sec, f.ocf, f.fdu)
  }

  ghost predicate Burst(s: seq<byte>, received: seq<byte>, k: nat, width: nat) {
    Crc.DifferInBurst(s, received, k, width) && width <= 16 && s != received
  }

  /** The octets that arrive for a frame are its own, or those with one burst of up to sixteen bits. */
  ghost predicate Stands(c: Config, m: TF.Mission, f: Sent, octets: seq<byte>)
    requires Suits(c, m) && Sendable(c, m, f)
  {
    octets == Packed(c, m, f) || exists k: nat, width: nat :: Burst(Packed(c, m, f), octets, k, width)
  }

  ghost predicate OnTheWay(c: Config, m: TF.Mission, frames: seq<Sent>, wire: seq<seq<byte>>) {
    && Suits(c, m) && |wire| == |frames|
    && (forall i :: 0 <= i < |frames| ==> Sendable(c, m, frames[i]))
    && forall i :: 0 <= i < |frames| ==> Stands(c, m, frames[i], wire[i])
  }

  /** The frames that no burst has hit. */
  ghost function Survivors(c: Config, m: TF.Mission, frames: seq<Sent>, wire: seq<seq<byte>>): seq<Fdu>
    requires OnTheWay(c, m, frames, wire)
    decreases |frames|
  {
    if frames == [] then []
    else
      var rest := Survivors(c, m, frames[1..], wire[1..]);
      if wire[0] == Packed(c, m, frames[0]) then [frames[0].fdu] + rest else rest
  }

  lemma {:induction false} SurvivorsWellFormed(c: Config, m: TF.Mission, frames: seq<Sent>, wire: seq<seq<byte>>)
    requires OnTheWay(c, m, frames, wire)
    ensures AllWellFormed(c, Survivors(c, m, frames, wire))
    decreases |frames|
  {
    hide Packed, Stands;
    if frames != [] {
      SurvivorsWellFormed(c, m, frames[1..], wire[1..]);
    }
  }

  lemma OneArrives(c: Config, m: TF.Mission, f: Sent, octets: seq<byte>, stuffing: bool, st: D.Rx, leftOver: bv16)
    requires Suits(c, m) && Sendable(c, m, f) && Stands(c, m, f, octets)
    ensures RX.Sound(c, m, octets, leftOver)
    ensures RX.OnOctets(c, m, stuffing, st, leftOver, octets).0
         == if octets == Packed(c, m, f) then D.Take(c, stuffing, st, f.fdu).0 else st
  {
    hide TF.Packed, D.Receive, D.ReceivePlain, RX.Sound, RX.OnOctets, Crc.DifferInBurst, TF.Laid, TF.Fits;
    if octets == Packed(c, m, f) {
      RX.FrameArrivesAsSent(c, m, f.p, f.sec, f.ocf, f.fdu, st, leftOver);
    } else {
      var k: nat, width: nat :| Burst(Packed(c, m, f), octets, k, width);
      RX.CorruptionIsIgnored(c, m, f.p, f.sec, f.ocf, f.fdu, stuffing, st, leftOver, octets, k, width);
    }
  }

  /** Over octets a receiver does what the frames do that no burst has hit. */
  lemma {:induction false} OctetsDoWhatFramesDo(c: Config, m: TF.Mission, frames: seq<Sent>, wire: seq<seq<byte>>,
                                                stuffing: bool, st: D.Rx, leftOver: bv16)
    requires OnTheWay(c, m, frames, wire)
    ensures RX.AllSound(c, m, wire, leftOver) && AllWellFormed(c, Survivors(c, m, frames, wire))
    ensures RX.FeedOctets(c, m, stuffing, st, wire, leftOver)
         == FeedAll(c, stuffing, st, Survivors(c, m, frames, wire))
    decreases |frames|
  {
    hide Stands, Sendable, Packed, D.Take, RX.OnOctets;
    SurvivorsWellFormed(c, m, frames, wire);
    if frames != [] {
      OneArrives(c, m, frames[0], wire[0], stuffing, st, leftOver);
      SoundIsSized(c, m, wire[0], leftOver);
      var t := RX.OnOctets(c, m, stuffing, st, leftOver, wire[0]).0;
      OctetsDoWhatFramesDo(c, m, frames[1..], wire[1..], stuffing, t, RX.LeftOver(m, wire[0], leftOver));
      if wire[0] == Packed(c, m, frames[0]) {
        var q := Survivors(c, m, frames, wire);
        assert q[0] == frames[0].fdu && q[1..] == Survivors(c, m, frames[1..], wire[1..]);
        FeedFirst(c, stuffing, st, q);
      }
    }
  }

  lemma SoundIsSized(c: Config, m: TF.Mission, s: seq<byte>, leftOver: bv16)
    requires RX.Sound(c, m, s, leftOver)
    ensures |s| == m.frameLen >= 2
  {
    hide RX.Agrees, TF.FduOf;
  }

  function FdusOf(frames: seq<Sent>): seq<Fdu> {
    if frames == [] then [] else [frames[0].fdu] + FdusOf(frames[1..])
  }

  lemma {:induction false} AllSurvive(c: Config, m: TF.Mission, frames: seq<Sent>, wire: seq<seq<byte>>)
    requires OnTheWay(c, m, frames, wire)
    requires forall i :: 0 <= i < |frames| ==> wire[i] == Packed(c, m, frames[i])
    ensures Survivors(c, m, frames, wire) == FdusOf(frames)
    decreases |frames|
  {
    hide Packed, Stands, Sendable;
    if frames != [] {
      assert wire[0] == Packed(c, m, frames[0]);
      forall i | 0 <= i < |frames[1..]| ensures wire[1..][i] == Packed(c, m, frames[1..][i]) {
        assert wire[i + 1] == Packed(c, m, frames[i + 1]);
      }
      AllSurvive(c, m, frames[1..], wire[1..]);
    }
  }

  /** Packets end to end: in a run of any length, what the user has taken and what the octets of the
      queued frames, whatever headers they get, make of his receiver are exactly the packets given. */
  lemma PacketsOverOctets(c: Config, m: TF.Mission, stuffing: bool, s: ST.Stream, run: seq<ST.Act>, frames: seq<Sent>,
                          wire: seq<seq<byte>>, leftOver: bv16)
    requires ST.Suits(c, stuffing) && ST.R.Fresh(s.link) && s.taken == [] && ST.ValidRun(c, stuffing, s, run)
    requires OnTheWay(c, m, frames, wire) && forall i :: 0 <= i < |frames| ==> wire[i] == Packed(c, m, frames[i])
    requires FdusOf(frames) == ST.Final(c, stuffing, s, run).link.tx.q
    ensures RX.AllSound(c, m, wire, leftOver)
    ensures var t := ST.Final(c, stuffing, s, run);
            && t.taken + t.link.rx.rx <= t.link.given
            && t.taken + RX.FeedOctets(c, m, stuffing, t.link.rx, wire, leftOver).rx == t.link.given
  {
    hide ST.Enabled, ST.After, ST.ValidRun, ST.Final, FeedAll, OnTheWay, RX.FeedOctets;
    ST.PacketsStreamInOrder(c, stuffing, s, run);
    var t := ST.Final(c, stuffing, s, run);
    OctetsDoWhatFramesDo(c, m, frames, wire, stuffing, t.link.rx, leftOver);
    AllSurvive(c, m, frames, wire);
  }

  /** Whatever the bursts hit, every packet delivered is put together from the data of frames that they
      did not hit, as told there. */
  lemma DeliveredOverOctets(c: Config, m: TF.Mission, st: D.Rx, frames: seq<Sent>, wire: seq<seq<byte>>, leftOver: bv16)
      returns (origins: seq<SP.Origin>)
    requires Sane(c) && OnTheWay(c, m, frames, wire) && st.loop == D.Closed
    ensures RX.AllSound(c, m, wire, leftOver)
    ensures var t := RX.FeedOctets(c, m, true, st, wire, leftOver);
            st.rx <= t.rx && SP.AllExplained(c, Survivors(c, m, frames, wire), origins, t.rx, |st.rx|)
  {
    hide FeedAll, OnTheWay, RX.FeedOctets, SP.AllExplained, SP.LoopExplained;
    OctetsDoWhatFramesDo(c, m, frames, wire, true, st, leftOver);
    var first: nat, at: nat;
    origins, first, at := SP.DeliveredIsExplained(c, st, Survivors(c, m, frames, wire));
  }
}
