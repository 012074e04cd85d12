/** The TC service over a channel of octets: what is under way are the packed frames, and the channel
    may lose them or hit them with bursts of bit errors. */
module TcChannel {
  import opened Octets
  import opened CopTypes
  import Crc
  import TF = TcFrame
  import F = FopTable
  import W = FopWindow
  import C = ClosedLoop
  import R = Farm
  import TX = TcTransmit
  import RX = TcReceive
  import S = TcService

  datatype Mission = Mission(cfg: TF.Config, vcid: bv8)

  function Packed(m: Mission, frame: Frame): seq<byte> {
    TF.Wire(m.cfg, m.vcid, frame)
  }

  /** The mission segments its data, and its frames are no longer than their length field can say. */
  predicate Suits(m: Mission, mapId: bv8, max: nat) {
    TF.Mission(m.cfg, m.vcid) && m.cfg.hasSeg && mapId < 64 && TF.Overhead(m.cfg) + max <= 1024
  }

  /** The service, and the octets under way of the frames in its `air`. */
  datatype Channel = Channel(service: S.Service, wire: seq<seq<byte>>)

  datatype Act =
    | Does(act: S.Act)
    | Radiates
    | Loses(i: nat)
    | Corrupts(i: nat, received: seq<byte>, k: nat, width: nat)
    | Arrives

  /** Octets changed by one burst of up to sixteen bits outside the length field. */
  ghost predicate Burst(s: seq<byte>, received: seq<byte>, k: nat, width: nat) {
    && Crc.DifferInBurst(s, received, k, width) && width <= 16 && s != received
    && |s| >= 4 && |received| >= 4
    && TF.LengthField(s[2], s[3]) == TF.LengthField(received[2], received[3])
  }

  predicate OnTheChannel(a: S.Act) {
    a.Move? && (a.move.Radiated? || a.move.UplinkLoses? || a.move.UplinkDelivers?)
  }

  /** The channel hits a frame at most once, and only a check value tells that it did. (That the
      receiver reads no octet behind those that arrive always holds in a run.) */
  ghost predicate Enabled(c: Channel, a: Act, m: Mission, p: S.Plan) {
    && |c.wire| == |c.service.link.air|
    && match a
       case Does(act) => S.Enabled(c.service, act, p) && !OnTheChannel(act)
       case Radiates => S.Enabled(c.service, S.Move(C.Radiated), p)
       case Loses(i) => i < |c.wire| && 0 < c.service.rxCap
       case Corrupts(i, received, k, width) =>
         && i < |c.wire| && m.cfg.hasCrc
         && c.wire[i] == Packed(m, c.service.link.air[i]) && Burst(c.wire[i], received, k, width)
       case Arrives => c.wire != [] && 0 < c.service.rxCap && RX.Sound(m.cfg, c.wire[0], |c.wire[0]|)
  }

  /** What the receiver makes of the octets that arrive. A frame that moves V(R) on is recorded as
      accepted. */
  function Received(s: S.Service, m: Mission, lim: RX.Limits, octets: seq<byte>): S.Service
    requires s.link.air != [] && 0 < s.rxCap && RX.Sound(m.cfg, octets, |octets|)
  {
    var t := RX.OnOctets(S.Receiver(s), m.cfg, lim, octets, |octets|).0;
    var accepted := if t.farm.vr == s.link.farm.vr then s.link.accepted
                    else s.link.accepted + [Payload(s.link.air[0])];
    s.(link := s.link.(air := s.link.air[1..], farm := t.farm, accepted := accepted), reasm := t.reasm, rx := t.rx)
  }

  ghost function After(c: Channel, a: Act, m: Mission, p: S.Plan): Channel
    requires Enabled(c, a, m, p) && 0 < p.max
  {
    match a
    case Does(act) => c.(service := S.After(c.service, act, p))
    case Radiates =>
      Channel(S.After(c.service, S.Move(C.Radiated), p), c.wire + [Packed(m, c.service.link.fop.tx[0])])
    case Loses(i) =>
      Channel(c.service.(link := c.service.link.(air := C.Without(c.service.link.air, i))), C.Without(c.wire, i))
    case Corrupts(i, received, _, _) => c.(wire := c.wire[i := received])
    case Arrives => Channel(Received(c.service, m, p.lim, c.wire[0]), c.wire[1..])
  }

  ghost predicate ValidRun(c: Channel, run: seq<Act>, m: Mission, p: S.Plan)
    decreases |run|
  {
    0 < p.max && (run == [] || (Enabled(c, run[0], m, p) && ValidRun(After(c, run[0], m, p), run[1..], m, p)))
  }

  ghost function Final(c: Channel, run: seq<Act>, m: Mission, p: S.Plan): Channel
    requires ValidRun(c, run, m, p)
    decreases |run|
  {
    if run == [] then c else Final(After(c, run[0], m, p), run[1..], m, p)
  }

  // ---------------------------------------------------------------------------------------
  // Octets under way stand for frames, or for frames lost
  // ---------------------------------------------------------------------------------------

  ghost predicate Stands(m: Mission, octets: seq<byte>, frame: Frame) {
    || octets == Packed(m, frame)
    || (m.cfg.hasCrc && exists k: nat, width: nat :: Burst(Packed(m, frame), octets, k, width))
  }

  ghost predicate WireOk(c: Channel, m: Mission) {
    && |c.wire| == |c.service.link.air|
    && forall i :: 0 <= i < |c.wire| ==> Stands(m, c.wire[i], c.service.link.air[i])
  }

  /** The first frame under way is one that this mission can send. */
  predicate Fits(m: Mission, frame: Frame) {
    !frame.hdr.typeB && TF.Mission(m.cfg, m.vcid) && TF.Sendable(m.cfg, frame) && m.cfg.hasSeg
  }

  lemma CleanArrival(s: S.Service, m: Mission, p: S.Plan, octets: seq<byte>)
    requires s.link.air != [] && 0 < s.rxCap && 0 < p.max && Fits(m, s.link.air[0])
    requires octets == Packed(m, s.link.air[0])
    ensures var act := S.Move(C.UplinkDelivers(|s.rx| >= s.rxCap));
            && RX.Sound(m.cfg, octets, |octets|)
            && S.Enabled(s, act, p) && S.After(s, act, p) == Received(s, m, p.lim, octets)
  {
    var frame := s.link.air[0];
    hide RX.OnFrame, RX.OnOctets, RX.Sound, R.Receive, TF.Wire;
    RX.FrameArrivesAsSent(S.Receiver(s), m.cfg, p.lim, m.vcid, frame, []);
    assert octets + [] == octets;
    AcceptedMovesOn(s, p.lim, frame);
  }

  lemma AcceptedMovesOn(s: S.Service, lim: RX.Limits, frame: Frame)
    requires 0 < s.rxCap && !frame.hdr.typeB && R.CommandReadable(frame)
    ensures var (g, r) := R.Receive(s.link.farm, frame, |s.rx| >= s.rxCap);
            && (r == R.Enq <==> g.vr != s.link.farm.vr)
            && RX.OnFrame(S.Receiver(s), true, lim, frame).0.farm == g
  {
    hide R.RegionTaken, RX.Reassemble;
  }

  lemma BurstArrival(s: S.Service, m: Mission, p: S.Plan, octets: seq<byte>, k: nat, width: nat)
    requires s.link.air != [] && 0 < s.rxCap && 0 < p.max && Fits(m, s.link.air[0]) && m.cfg.hasCrc
    requires Burst(Packed(m, s.link.air[0]), octets, k, width)
    ensures RX.Sound(m.cfg, octets, |octets|)
    ensures S.Enabled(s, S.Move(C.UplinkLoses(0)), p)
    ensures S.After(s, S.Move(C.UplinkLoses(0)), p) == Received(s, m, p.lim, octets)
  {
    hide RX.OnFrame, RX.OnOctets, RX.Sound, R.Receive, TF.Wire, Crc.DifferInBurst, TF.LengthField;
    RX.CorruptionIsIgnored(S.Receiver(s), m.cfg, p.lim, m.vcid, s.link.air[0], octets, k, width);
    assert C.Without(s.link.air, 0) == s.link.air[1..];
  }

  /** Every act on the channel of octets is an act on the channel of frames, where a frame hit by a
      burst is lost when it arrives, or none at all. */
  lemma ActIsSimulated(c: Channel, a: Act, m: Mission, p: S.Plan) returns (sim: seq<S.Act>)
    requires 0 < p.max && Enabled(c, a, m, p) && WireOk(c, m)
    requires c.service.link.air != [] ==> Fits(m, c.service.link.air[0])
    ensures WireOk(After(c, a, m, p), m)
    ensures if sim == [] then After(c, a, m, p).service == c.service
            else |sim| == 1 && S.Enabled(c.service, sim[0], p)
                 && S.After(c.service, sim[0], p) == After(c, a, m, p).service
  {
    hide S.Enabled, S.After, RX.Sound, Received, Packed, Burst, Fits;
    sim := [];
    match a {
      case Does(act) =>
        sim := [act];
        OtherActKeepsAir(c.service, act, p);
      case Radiates =>
        sim := [S.Move(C.Radiated)];
        RadiatedJoinsAir(c.service, p);
      case Loses(i) =>
        sim := [S.Move(C.UplinkLoses(i))];
        LostLeavesAir(c.service, i, p);
      case Corrupts(i, received, k, width) =>
        assert Stands(m, received, c.service.link.air[i]);
      case Arrives =>
        assert Stands(m, c.wire[0], c.service.link.air[0]);
        ArrivedLeavesAir(c.service, m, p.lim, c.wire[0]);
        if c.wire[0] == Packed(m, c.service.link.air[0]) {
          CleanArrival(c.service, m, p, c.wire[0]);
          sim := [S.Move(C.UplinkDelivers(|c.service.rx| >= c.service.rxCap))];
        } else {
          var k: nat, width: nat :| Burst(Packed(m, c.service.link.air[0]), c.wire[0], k, width);
          BurstArrival(c.service, m, p, c.wire[0], k, width);
          sim := [S.Move(C.UplinkLoses(0))];
        }
    }
  }

  lemma OtherActKeepsAir(s: S.Service, a: S.Act, p: S.Plan)
    requires 0 < p.max && S.Enabled(s, a, p) && !OnTheChannel(a)
    ensures S.After(s, a, p).link.air == s.link.air
  {
    hide F.FopStep, W.HandedOver, R.Receive, W.Disciplined, TX.SendFrom, W.Submitted;
  }

  lemma RadiatedJoinsAir(s: S.Service, p: S.Plan)
    requires 0 < p.max && S.Enabled(s, S.Move(C.Radiated), p)
    ensures s.link.fop.tx != [] && S.After(s, S.Move(C.Radiated), p).link.air == s.link.air + [s.link.fop.tx[0]]
  {
    hide F.FopStep;
  }

  lemma LostLeavesAir(s: S.Service, i: nat, p: S.Plan)
    requires 0 < p.max && i < |s.link.air| && 0 < s.rxCap
    ensures S.Enabled(s, S.Move(C.UplinkLoses(i)), p)
    ensures S.After(s, S.Move(C.UplinkLoses(i)), p) == s.(link := s.link.(air := C.Without(s.link.air, i)))
  {
  }

  lemma ArrivedLeavesAir(s: S.Service, m: Mission, lim: RX.Limits, octets: seq<byte>)
    requires s.link.air != [] && 0 < s.rxCap && RX.Sound(m.cfg, octets, |octets|)
    ensures Received(s, m, lim, octets).link.air == s.link.air[1..]
  {
    hide RX.OnOctets, RX.Sound;
  }

  // ---------------------------------------------------------------------------------------
  // What the service sends fits its frames
  // ---------------------------------------------------------------------------------------

  ghost predicate SegmentsFit(segs: seq<Segment>, max: nat, mapId: bv8) {
    forall i :: 0 <= i < |segs| ==> segs[i].seg.mapId == mapId && |segs[i].data| <= max
  }

  lemma {:induction false} AllPiecesFit(sdus: seq<seq<byte>>, max: nat, mapId: bv8)
    requires 0 < max
    ensures SegmentsFit(S.AllPieces(sdus, max, mapId), max, mapId)
    decreases |sdus|
  {
    if sdus != [] {
      AllPiecesFit(sdus[1..], max, mapId);
      hide TX.Pieces;
      var first := TX.Pieces(sdus[0], 0, max, mapId);
      if sdus[0] == [] {
        NoPieces(sdus[0], max, mapId);
      } else {
        forall i | 0 <= i < |first| ensures first[i].seg.mapId == mapId && |first[i].data| <= max {
          TX.FlagsTellPosition(sdus[0], 0, max, mapId, i);
        }
      }
    }
  }

  lemma NoPieces(sdu: seq<byte>, max: nat, mapId: bv8)
    requires 0 < max && sdu == []
    ensures TX.Pieces(sdu, 0, max, mapId) == []
  {
  }

  lemma HandedFits(s: S.Service, p: S.Plan, mapId: bv8)
    requires 0 < p.max && S.HandedOk(s, p, mapId)
    ensures SegmentsFit(s.link.handed, p.max, mapId)
  {
    AllPiecesFit(p.sdus, p.max, mapId);
    hide S.AllPieces, S.Remaining;
    assert s.link.handed <= S.AllPieces(p.sdus, p.max, mapId);
  }

  lemma FirstFrameFits(s: S.Service, base: Counter, u: seq<nat>, d: seq<nat>, m: Mission, p: S.Plan, mapId: bv8)
    requires 0 < p.max && C.Invariant(s.link, base, p.kmax, u, d) && S.ServiceOk(s, p, mapId)
    requires Suits(m, mapId, p.max) && s.link.air != []
    ensures Fits(m, s.link.air[0]) && 0 < s.rxCap
  {
    HandedFits(s, p, mapId);
    hide S.HandedOk, C.SessionOk, S.OnlyTypeA, S.TakeInAll;
    assert C.Uplink(s.link)[0] == s.link.air[0];
    assert s.link.fop.log <= s.link.handed;
    assert s.link.fop.log[u[0]] == s.link.handed[u[0]];
  }

  // ---------------------------------------------------------------------------------------
  // Runs
  // ---------------------------------------------------------------------------------------

  lemma OneAct(s: S.Service, a: S.Act, t: S.Service, rest: seq<S.Act>, p: S.Plan)
    requires 0 < p.max && S.Enabled(s, a, p) && S.After(s, a, p) == t && S.ValidRun(t, rest, p)
    ensures S.ValidRun(s, [a] + rest, p) && S.Final(s, [a] + rest, p) == S.Final(t, rest, p)
  {
    var run := [a] + rest;
    assert run[0] == a && run[1..] == rest;
    hide S.After, S.Enabled;
  }

  /** Every run over octets is a run of the service over frames. */
  lemma {:induction false} RunIsSimulated(c: Channel, base: Counter, u: seq<nat>, d: seq<nat>, run: seq<Act>,
                                          m: Mission, p: S.Plan, mapId: bv8)
      returns (sim: seq<S.Act>)
    requires ValidRun(c, run, m, p) && WireOk(c, m) && Suits(m, mapId, p.max)
    requires C.Invariant(c.service.link, base, p.kmax, u, d) && S.ServiceOk(c.service, p, mapId)
    ensures S.ValidRun(c.service, sim, p) && S.Final(c.service, sim, p) == Final(c, run, m, p).service
    ensures WireOk(Final(c, run, m, p), m)
    decreases |run|
  {
    hide C.Invariant, S.ServiceOk, WireOk, Suits, Fits, Enabled, After, S.Enabled, S.After;
    sim := [];
    if run != [] {
      var t := After(c, run[0], m, p);
      if c.service.link.air != [] {
        FirstFrameFits(c.service, base, u, d, m, p, mapId);
      }
      var step := ActIsSimulated(c, run[0], m, p);
      if step == [] {
        sim := RunIsSimulated(t, base, u, d, run[1..], m, p, mapId);
      } else {
        OneAct(c.service, step[0], t.service, [], p);
        var u', d' := S.RunKeepsService(c.service, base, u, d, [step[0]] + [], p, mapId);
        var rest := RunIsSimulated(t, base, u', d', run[1..], m, p, mapId);
        OneAct(c.service, step[0], t.service, rest, p);
        sim := [step[0]] + rest;
      }
    }
  }

  /** Whatever the channel loses and whatever it does to the bits, one burst a frame: the units
      delivered are at every moment a prefix of the units given to the sender, all of them once the
      sender is settled, and the receiver never reads behind the octets that arrived. */
  lemma UnitsSurviveBursts(c: Channel, run: seq<Act>, m: Mission, p: S.Plan) returns (k: nat)
    requires S.Started(c.service, p.kmax) && c.wire == [] && S.Sensible(p) && ValidRun(c, run, m, p)
    requires Suits(m, c.service.link.fop.hdr.seg.mapId, p.max)
    ensures var t := Final(c, run, m, p);
            && k <= |p.sdus| && S.Units(t.service) == p.sdus[..k]
            && (S.Settled(t.service) ==> k == t.service.sent && t.service.reasm == RX.Closed)
            && (t.wire != [] ==> RX.Sound(m.cfg, t.wire[0], |t.wire[0]|))
  {
    hide C.Invariant, S.ServiceOk, Suits, Enabled, After, S.Enabled, S.After, S.Sensible, Packed, RX.Sound, Fits;
    var mapId, base := c.service.link.fop.hdr.seg.mapId, c.service.link.farm.vr;
    S.StartedIsOk(c.service, p);
    var sim := RunIsSimulated(c, base, [], [], run, m, p, mapId);
    var t := Final(c, run, m, p);
    hide Final, ValidRun;
    k := S.UnitsArriveInOrder(c.service, sim, p);
    if S.Settled(t.service) {
      S.AcknowledgedIsDelivered(c.service, sim, p);
      k := t.service.sent;
    }
    if t.wire != [] {
      var u, d := S.RunKeepsService(c.service, base, [], [], sim, p, mapId);
      FirstFrameFits(t.service, base, u, d, m, p, mapId);
      assert Stands(m, t.wire[0], t.service.link.air[0]);
      if t.wire[0] == Packed(m, t.service.link.air[0]) {
        CleanArrival(t.service, m, p, t.wire[0]);
      } else {
        var b: nat, width: nat :| Burst(Packed(m, t.service.link.air[0]), t.wire[0], b, width);
        BurstArrival(t.service, m, p, t.wire[0], b, width);
      }
    }
  }
}
