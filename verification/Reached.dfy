/** Runs that reach what FopLimits.dfy and TcTransmit.dfy tell of: a retransmitting sender that hears a
    repeated acknowledgement, and a call that ends in UNDEF_ERROR. */
module Reached {
  import opened Octets
  import opened CopTypes
  import F = FopTable
  import W = FopWindow
  import L = FopLimits
  import R = Farm
  import TX = TcTransmit
  import opened ClosedLoop
  import opened Progress

  // ---------------------------------------------------------------------------------------
  // Acknowledged twice
  // ---------------------------------------------------------------------------------------

  /** A report that asks for retransmission and the timer do the same, but for the state. */
  lemma AskedLikeExpired(f: F.FopVars, c: Clcw)
    requires f.state == F.Active && f.timeoutType <= 1 && 1 < f.txLim && f.txCnt < f.txLim
    requires !c.lockout && c.retransmit && !c.wait && c.nr == f.nnr && c.nr != f.vs && f.nnr <= f.vs
    ensures F.OnClcw(f, c) == F.OnTimer(f).(state := F.RtNoWait)
  {
    hide F.LookForFdu, F.RetryAd, F.RetryBc, F.RemoveAcked, F.LookForDirective;
    assert F.ClcwEvent(f, c) == F.E10;
    assert F.TimerEvent(f) == F.E16 || F.TimerEvent(f) == F.E104;
    hide F.ClcwEvent, F.TimerEvent;
  }

  lemma ReportAsksAgain(f: F.FopVars, piece: Segment)
    requires QuietSender(f) && 1 < f.txLim && f.vs != 255
    ensures F.OnClcw(InFlight(f, piece, 1).(tx := []), Clcw(false, false, true, f.vs))
         == InFlight(f, piece, 2).(state := F.RtNoWait)
  {
    hide F.OnTimer, F.OnClcw;
    TimerRetransmits(f, piece, 1);
    AskedLikeExpired(InFlight(f, piece, 1).(tx := []), Clcw(false, false, true, f.vs));
  }

  lemma AcknowledgedTwice(f: F.FopVars, piece: Segment)
    requires QuietSender(f)
    ensures var c := Clcw(false, false, false, Next(f.vs));
            var g := F.OnClcw(InFlight(f, piece, 2).(tx := [], state := F.RtNoWait), c);
            g == Done(f, piece).(state := F.RtNoWait) && F.OnClcw(g, c).state == F.Init
  {
    ReportSettles(f, piece, 2);
    var c := Clcw(false, false, false, Next(f.vs));
    var g := InFlight(f, piece, 2).(tx := []);
    var h := g.(state := F.RtNoWait);
    assert F.ClcwEvent(g, c) == F.E2 == F.ClcwEvent(h, c);
    assert F.Leading(g.sent[1..], c.nr) == 0;
    assert F.Leading(g.sent, c.nr) == 1 && g.sent[1..] == [];
    assert F.RemoveAcked(h, c.nr) == Done(f, piece).(state := F.RtNoWait);
    hide F.RemoveAcked, F.Leading, F.RetryAd, F.RetryBc, F.LookForDirective;
    var d := Done(f, piece).(state := F.RtNoWait);
    assert F.LookForFdu(d) == (d, F.Ignored);
    assert F.ClcwEvent(d, c) == F.E1;
  }

  /** The receiver has no room when the frame comes, is released, asks for it again, gets it, and
      reports twice. */
  const REFUSED: seq<Move> := [Radiated, UplinkDelivers(true), BufferFreed, Reported, DownlinkDelivers]

  const HEARD_TWICE: seq<Move> := [Reported, Reported, DownlinkDelivers, DownlinkDelivers]

  function Refused(s: Link, piece: Segment): Link {
    s.(fop := InFlight(s.fop, piece, 2).(state := F.RtNoWait), farm := s.farm.(retransmit := true),
       handed := s.handed + [piece])
  }

  lemma RefusalRuns(s: Link, piece: Segment, kmax: Counter)
    requires Quiet(s) && 1 < s.fop.txLim && s.fop.vs != 255
    ensures ValidRun(Flying(s, piece, 1), REFUSED, kmax)
    ensures Final(Flying(s, piece, 1), REFUSED, kmax) == Refused(s, piece)
  {
    R.DispatchOnCircle(s.fop.vs, s.farm.vr, s.farm.w);
    ReportAsksAgain(s.fop, piece);
    var frame := FrameOf(s.fop, piece);
    var s0 := Flying(s, piece, 1);
    HeadDrained(s0.fop);
    hide F.OnRequest, F.OnTimer, F.OnClcw, F.OnDirective, F.OnResponse, R.RegionTaken;
    var s1 := s0.(fop := s0.fop.(tx := []), air := [frame]);
    assert s.air + [frame] == [frame];
    assert After(s0, Radiated) == s1;
    var s2 := s1.(air := [], farm := s.farm.(retransmit := true, wait := true, state := R.Wait));
    assert s1.air[1..] == [];
    assert After(s1, UplinkDelivers(true)) == s2;
    var s3 := s2.(farm := s.farm.(retransmit := true));
    assert After(s2, BufferFreed) == s3;
    var s4 := s3.(down := [Clcw(false, false, true, s.fop.vs)]);
    assert s.down + s4.down == s4.down && s4.down[1..] == [];
    assert After(s3, Reported) == s4;
    assert After(s4, DownlinkDelivers) == Refused(s, piece);
    hide After, Enabled;
    assert Final(Refused(s, piece), [], kmax) == Refused(s, piece);
    OneMove(s4, DownlinkDelivers, Refused(s, piece), [], kmax);
    OneMove(s3, Reported, s4, [DownlinkDelivers], kmax);
    OneMove(s2, BufferFreed, s3, [Reported, DownlinkDelivers], kmax);
    OneMove(s1, UplinkDelivers(true), s2, REFUSED[2..], kmax);
    OneMove(s0, Radiated, s1, REFUSED[1..], kmax);
  }

  /** Accepted at the second try, and not acknowledged yet. */
  function Retried(s: Link, piece: Segment): Link {
    Taken(s, piece, 2).(fop := InFlight(s.fop, piece, 2).(tx := [], state := F.RtNoWait))
  }

  lemma RetryRuns(s: Link, piece: Segment, kmax: Counter)
    requires Quiet(s)
    ensures ValidRun(Refused(s, piece), DELIVERY, kmax)
    ensures Final(Refused(s, piece), DELIVERY, kmax) == Retried(s, piece)
  {
    R.DispatchOnCircle(s.fop.vs, s.farm.vr, s.farm.w);
    var frame := FrameOf(s.fop, piece);
    var s0 := Refused(s, piece);
    HeadDrained(s0.fop);
    hide F.OnRequest, F.OnTimer, F.OnClcw, F.OnDirective, F.OnResponse, R.RegionTaken;
    var s1 := s0.(fop := s0.fop.(tx := []), air := [frame]);
    assert s.air + [frame] == [frame];
    assert After(s0, Radiated) == s1;
    assert Payload(frame) == piece && s1.air[1..] == [];
    assert After(s1, UplinkDelivers(false)) == Retried(s, piece);
    hide After, Enabled;
    assert Final(Retried(s, piece), [], kmax) == Retried(s, piece);
    OneMove(s1, UplinkDelivers(false), Retried(s, piece), [], kmax);
    OneMove(s0, Radiated, s1, [UplinkDelivers(false)], kmax);
  }

  lemma HeardTwice(s: Link, piece: Segment, kmax: Counter)
    requires Quiet(s)
    ensures ValidRun(Retried(s, piece), HEARD_TWICE, kmax)
    ensures var t := Final(Retried(s, piece), HEARD_TWICE, kmax);
            t.fop.state == F.Init && t.accepted == s.accepted + [piece]
  {
    AcknowledgedTwice(s.fop, piece);
    hide F.OnRequest, F.OnTimer, F.OnClcw, F.OnDirective, F.OnResponse;
    var c := Clcw(false, false, false, Next(s.fop.vs));
    var s0 := Retried(s, piece);
    var s1 := s0.(down := [c]);
    var s2 := s0.(down := [c, c]);
    assert s.down + [c] == [c] && [c] + [c] == [c, c] && [c, c][1..] == [c] && [c][1..] == [];
    assert After(s0, Reported) == s1 && After(s1, Reported) == s2;
    var s3 := s1.(fop := Done(s.fop, piece).(state := F.RtNoWait));
    assert After(s2, DownlinkDelivers) == s3;
    var s4 := s3.(fop := F.OnClcw(s3.fop, c), down := []);
    assert After(s3, DownlinkDelivers) == s4;
    hide After, Enabled;
    assert Final(s4, [], kmax) == s4;
    OneMove(s3, DownlinkDelivers, s4, [], kmax);
    OneMove(s2, DownlinkDelivers, s3, [DownlinkDelivers], kmax);
    OneMove(s1, Reported, s2, [DownlinkDelivers, DownlinkDelivers], kmax);
    OneMove(s0, Reported, s1, HEARD_TWICE[1..], kmax);
  }

  /** From every quiet link: a receiver short of room once, and one report too many, end the session
      although the segment has arrived and been acknowledged. */
  lemma RepeatedAcknowledgementIsReached(s: Link, piece: Segment, kmax: Counter)
    requires Quiet(s) && 1 < s.fop.txLim && s.fop.vs != 255
    ensures var run := HandOver(piece) + REFUSED + DELIVERY + HEARD_TWICE;
            && ValidRun(s, run, kmax)
            && Final(s, run, kmax).fop.state == F.Init && Final(s, run, kmax).accepted == s.accepted + [piece]
  {
    hide Enabled, After, Quiet, Flying, HandOver, InFlight, Final, ValidRun, R.Receive, Refused, Retried;
    HandOverRuns(s, piece, kmax);
    RefusalRuns(s, piece, kmax);
    RetryRuns(s, piece, kmax);
    HeardTwice(s, piece, kmax);
    RunAppend(s, HandOver(piece), REFUSED, kmax);
    RunAppend(s, HandOver(piece) + REFUSED, DELIVERY, kmax);
    RunAppend(s, HandOver(piece) + REFUSED + DELIVERY, HEARD_TWICE, kmax);
  }

  // ---------------------------------------------------------------------------------------
  // UNDEF_ERROR
  // ---------------------------------------------------------------------------------------

  /** Two segments outstanding, of which the second may still be marked. */
  function TwoOut(f: F.FopVars, a: Segment, b: Segment, tries: Counter, rt: bool): F.FopVars {
    var g := InFlight(f, a, tries);
    var frame := FrameOf(f.(vs := Next(f.vs)), b);
    g.(hdr := frame.hdr, data := b.data, vs := Next(Next(f.vs)),
       sent := g.sent + [F.Item(frame, rt, Next(f.vs), false)], tx := [], log := f.log + [a] + [b])
  }

  lemma SecondTransmits(f: F.FopVars, a: Segment, b: Segment)
    requires QuietSender(f) && 2 <= f.wnd && 2 <= f.sentCap
    ensures var g := InFlight(f, a, 1).(tx := []);
            var frame := FrameOf(f.(vs := Next(f.vs)), b);
            F.OnRequest(F.Prepare(g, Header(false, false, b.seg), b.data)).0
               == TwoOut(f, a, b, 1, false).(tx := [frame])
  {
    var g := InFlight(f, a, 1).(tx := []);
    var frame := FrameOf(f.(vs := Next(f.vs)), b);
    var p := F.Prepare(g, Header(false, false, b.seg), b.data);
    var h := p.(wait := [F.Request(p.hdr, p.data)]);
    assert F.FirstMarked(h.sent[1..]) == 0;
    assert F.FirstMarked(h.sent) == 1;
    assert F.Resend(h) == (h, true);
    assert F.Pack(h, h.wait[0].data) == frame && h.wait[1..] == [] && h.tx + [frame] == [frame];
    assert F.TransmitAd(h) == (TwoOut(f, a, b, 1, false).(tx := [frame]), true);
    assert Distance(h.vs, h.nnr) == 1;
  }

  lemma TimerSendsFirst(f: F.FopVars, a: Segment, b: Segment)
    requires QuietSender(f) && 1 < f.txLim
    ensures F.OnTimer(TwoOut(f, a, b, 1, false)) == TwoOut(f, a, b, 2, true).(tx := [FrameOf(f, a)])
  {
    hide F.RemoveAcked, F.RetryBc, F.LookForDirective, F.TransmitAd;
    var g := TwoOut(f, a, b, 1, false);
    var marked := [g.sent[0].(rt := true), g.sent[1].(rt := true)];
    var h := g.(txCnt := 2, sent := marked);
    assert F.MarkAll(g.sent) == marked && F.RetryAd(g) == h;
    assert F.FirstMarked(marked) == 0 && F.Leading(marked, f.vs) == 0;
    assert F.ResetRt(marked, f.vs) == TwoOut(f, a, b, 2, true).sent;
    assert h.tx + [FrameOf(f, a)] == [FrameOf(f, a)];
    hide F.FirstMarked, F.Leading, F.ResetRt, F.MarkAll, F.RetryAd;
    assert F.Resend(h) == (TwoOut(f, a, b, 2, true).(tx := [FrameOf(f, a)]), true);
    hide F.Resend;
    assert F.TimerEvent(g) == F.E16 || F.TimerEvent(g) == F.E104;
  }

  /** The second frame, still to be sent again, takes the one place of the queue. */
  lemma ThirdIsUndefined(f: F.FopVars, a: Segment, b: Segment, piece: Segment)
    requires QuietSender(f) && 3 <= f.wnd && 3 <= f.sentCap && f.txCap == 1
    ensures var g := TwoOut(f, a, b, 2, true);
            F.OnRequest(F.Prepare(g, g.hdr.(seg := piece.seg), piece.data)).1 == F.Undefined
  {
    var g := TwoOut(f, a, b, 2, true);
    var p := F.Prepare(g, g.hdr.(seg := piece.seg), piece.data);
    var h := p.(wait := [F.Request(p.hdr, p.data)]);
    assert F.FirstMarked(h.sent[1..]) == 0;
    assert F.FirstMarked(h.sent) == 1;
    var r := F.Resend(h).0;
    assert |r.tx| == 1 && r.wait == h.wait && F.Resend(h).1;
    assert Distance(h.vs, h.nnr) == 2;
    hide F.FirstMarked, F.ResetRt, F.Leading, F.Resend;
  }

  /** From every quiet sender whose transmission queue holds one frame: two segments, a timer expiry, and
      the next call of the service ends in UNDEF_ERROR. */
  lemma UndefinedIsReached(f: F.FopVars, a: Segment, b: Segment, sdu: seq<byte>, max: nat)
    requires QuietSender(f) && 3 <= f.wnd && 3 <= f.sentCap && f.txCap == 1 && 1 < f.txLim
    requires sdu != [] && 0 < max
    ensures var evs := [F.Prepared(Header(false, false, a.seg), a.data), F.Requested, F.Drained(0),
                        F.Prepared(Header(false, false, b.seg), b.data), F.Requested, F.Drained(0),
                        F.TimerExpires, F.Drained(0)];
            && L.Run(f, evs) == TwoOut(f, a, b, 2, true)
            && TX.SendFrom(L.Run(f, evs), sdu, 0, max).2 == TX.TxUndef
  {
    RequestTransmits(f, a);
    SecondTransmits(f, a, b);
    TimerSendsFirst(f, a, b);
    var piece := TX.PieceAt(sdu, 0, max, TwoOut(f, a, b, 2, true).hdr.seg.mapId);
    ThirdIsUndefined(f, a, b, piece);
    var f1 := F.Prepare(f, Header(false, false, a.seg), a.data);
    var f2 := InFlight(f, a, 1);
    HeadDrained(f2);
    var f3 := f2.(tx := []);
    assert f2.tx[1..] == [];
    var f4 := F.Prepare(f3, Header(false, false, b.seg), b.data);
    var f5 := TwoOut(f, a, b, 1, false).(tx := [FrameOf(f.(vs := Next(f.vs)), b)]);
    HeadDrained(f5);
    assert f5.tx[1..] == [];
    var f6 := TwoOut(f, a, b, 1, false);
    assert f5.(tx := []) == f6;
    var f7 := TwoOut(f, a, b, 2, true).(tx := [FrameOf(f, a)]);
    HeadDrained(f7);
    assert f7.tx[1..] == [];
    var f8 := TwoOut(f, a, b, 2, true);
    assert f7.(tx := []) == f8;
    hide F.OnRequest, F.OnTimer, F.OnClcw, F.OnDirective, F.OnResponse, TX.PieceAt;
    assert f.hdr.(seg := a.seg) == Header(false, false, a.seg);
    assert TX.SendFrom(f8, sdu, 0, max).2 == TX.TxUndef;
    assert F.FopStep(f, F.Prepared(Header(false, false, a.seg), a.data)) == f1;
    assert F.FopStep(f1, F.Requested) == f2 && F.FopStep(f2, F.Drained(0)) == f3;
    assert F.FopStep(f3, F.Prepared(Header(false, false, b.seg), b.data)) == f4;
    assert F.FopStep(f4, F.Requested) == f5 && F.FopStep(f5, F.Drained(0)) == f6;
    assert F.FopStep(f6, F.TimerExpires) == f7 && F.FopStep(f7, F.Drained(0)) == f8;
    hide F.FopStep, TwoOut, InFlight, TX.SendFrom, F.Prepare, FrameOf;
    RunEight(f, f1, f2, f3, f4, f5, f6, f7, f8,
             F.Prepared(Header(false, false, a.seg), a.data), F.Prepared(Header(false, false, b.seg), b.data));
  }

  lemma RunEight(f0: F.FopVars, f1: F.FopVars, f2: F.FopVars, f3: F.FopVars, f4: F.FopVars, f5: F.FopVars,
                 f6: F.FopVars, f7: F.FopVars, f8: F.FopVars, a: F.FopEvent, b: F.FopEvent)
    requires F.FopStep(f0, a) == f1 && F.FopStep(f1, F.Requested) == f2 && F.FopStep(f2, F.Drained(0)) == f3
    requires F.FopStep(f3, b) == f4 && F.FopStep(f4, F.Requested) == f5 && F.FopStep(f5, F.Drained(0)) == f6
    requires F.FopStep(f6, F.TimerExpires) == f7 && F.FopStep(f7, F.Drained(0)) == f8
    ensures L.Run(f0, [a, F.Requested, F.Drained(0), b, F.Requested, F.Drained(0), F.TimerExpires, F.Drained(0)]) == f8
  {
    hide F.FopStep, L.Run;
    var evs := [a, F.Requested, F.Drained(0), b, F.Requested, F.Drained(0), F.TimerExpires, F.Drained(0)];
    assert evs[0..] == evs && evs[8..] == [];
    NextEvent(f0, evs, 0);
    NextEvent(f1, evs, 1);
    NextEvent(f2, evs, 2);
    NextEvent(f3, evs, 3);
    NextEvent(f4, evs, 4);
    NextEvent(f5, evs, 5);
    NextEvent(f6, evs, 6);
    NextEvent(f7, evs, 7);
    L.RunStep(f8, evs);
  }

  lemma NextEvent(f: F.FopVars, evs: seq<F.FopEvent>, i: nat)
    requires i < |evs|
    ensures L.Run(f, evs[i..]) == L.Run(F.FopStep(f, evs[i]), evs[i + 1..])
  {
    hide F.FopStep;
    assert evs[i..][1..] == evs[i + 1..];
    L.RunStep(f, evs[i..]);
  }
}
