/** That the closed loop gets anywhere: from a quiet link every list of segments is delivered by a run
    in which each frame is lost fewer times than the transmission limit. */
module Progress {
  import opened Octets
  import opened CopTypes
  import F = FopTable
  import W = FopWindow
  import R = Farm
  import opened ClosedLoop

  /** An open session at rest: both ends agree, and nothing is outstanding or under way. */
  ghost predicate Quiet(s: Link) {
    && QuietSender(s.fop)
    && s.fop.vs == s.farm.vr && s.farm.state == R.Open && R.Consistent(s.farm) && R.Configured(s.farm)
    && s.air == [] && s.down == []
  }

  predicate QuietSender(f: F.FopVars) {
    && f.state == F.Active && f.ss == 0 && f.vs == f.nnr && f.sent == [] && f.wait == [] && f.tx == []
    && 1 <= f.wnd && 1 <= f.sentCap && 1 <= f.txCap && 1 <= f.txLim && f.timeoutType <= 1
    && !f.hdr.typeB && !f.hdr.command
  }

  /** The frame a quiet sender makes of a segment. */
  function FrameOf(f: F.FopVars, piece: Segment): Frame {
    Frame(f.hdr.(seg := piece.seg), f.vs, piece.data)
  }

  /** The segment has been transmitted for the `tries`-th time and waits for the lower layer. */
  function InFlight(f: F.FopVars, piece: Segment, tries: Counter): F.FopVars {
    var frame := FrameOf(f, piece);
    f.(hdr := frame.hdr, data := piece.data, vs := Next(f.vs), txCnt := tries,
       sent := [F.Item(frame, false, f.vs, false)], tx := [frame], log := f.log + [piece])
  }

  /** It has been acknowledged. */
  function Done(f: F.FopVars, piece: Segment): F.FopVars {
    var frame := FrameOf(f, piece);
    f.(hdr := frame.hdr, data := piece.data, vs := Next(f.vs), nnr := Next(f.vs), txCnt := 1, log := f.log + [piece])
  }

  lemma RequestTransmits(f: F.FopVars, piece: Segment)
    requires QuietSender(f)
    ensures var g := F.Prepare(f, f.hdr.(seg := piece.seg), piece.data);
            F.OnRequest(g) == (InFlight(f, piece, 1), F.Accepted)
  {
    var g := F.Prepare(f, f.hdr.(seg := piece.seg), piece.data);
    var frame := FrameOf(f, piece);
    var h := g.(wait := [F.Request(g.hdr, g.data)]);
    assert F.Resend(h) == (h, true);
    assert F.Pack(h, h.wait[0].data) == frame && h.wait[1..] == [];
    assert h.tx + [frame] == [frame] && h.sent + [F.Item(frame, false, f.vs, false)]
        == [F.Item(frame, false, f.vs, false)];
    assert F.TransmitAd(h) == (InFlight(f, piece, 1), true);
    assert Distance(h.vs, h.nnr) == 0;
  }

  lemma TimerRetransmits(f: F.FopVars, piece: Segment, tries: Counter)
    requires QuietSender(f) && tries < f.txLim
    ensures F.OnTimer(InFlight(f, piece, tries).(tx := [])) == InFlight(f, piece, tries + 1)
  {
    hide F.RemoveAcked, F.RetryBc, F.LookForDirective, F.TransmitAd;
    var frame := FrameOf(f, piece);
    var g := InFlight(f, piece, tries).(tx := []);
    var marked := [F.Item(frame, true, f.vs, false)];
    var h := g.(txCnt := tries + 1, sent := marked);
    assert F.MarkAll(g.sent) == marked;
    assert F.RetryAd(g) == h;
    assert F.FirstMarked(marked) == 0 && F.Leading(marked, f.vs) == 0;
    assert F.ResetRt(marked, f.vs) == g.sent;
    assert h.tx + [frame] == [frame];
    hide F.FirstMarked, F.Leading, F.ResetRt, F.MarkAll, F.RetryAd;
    assert F.Resend(h) == (InFlight(f, piece, tries + 1), true);
    hide F.Resend;
    assert F.TimerEvent(g) == F.E16 || F.TimerEvent(g) == F.E104;
  }

  lemma TimerEndsTrying(f: F.FopVars, piece: Segment)
    requires QuietSender(f)
    ensures F.OnTimer(InFlight(f, piece, f.txLim).(tx := [])).state == F.Init
  {
    hide F.LookForFdu, F.LookForDirective, F.RemoveAcked, F.RetryAd, F.RetryBc;
  }

  lemma ReportSettles(f: F.FopVars, piece: Segment, tries: Counter)
    requires QuietSender(f)
    ensures F.OnClcw(InFlight(f, piece, tries).(tx := []), Clcw(false, false, false, Next(f.vs))) == Done(f, piece)
    ensures QuietSender(Done(f, piece))
  {
    var g := InFlight(f, piece, tries).(tx := []);
    var c := Clcw(false, false, false, Next(f.vs));
    assert F.ClcwEvent(g, c) == F.E2;
    assert F.Leading(g.sent[1..], c.nr) == 0;
    assert F.Leading(g.sent, c.nr) == 1 && g.sent[1..] == [];
    assert F.RemoveAcked(g, c.nr) == Done(f, piece);
    hide F.RemoveAcked, F.Leading, F.RetryAd, F.RetryBc, F.LookForDirective;
    assert F.LookForFdu(Done(f, piece)) == (Done(f, piece), F.Ignored);
  }

  // ---------------------------------------------------------------------------------------
  // Runs
  // ---------------------------------------------------------------------------------------

  lemma {:induction false} RunAppend(s: Link, a: seq<Move>, b: seq<Move>, kmax: Counter)
    requires ValidRun(s, a, kmax) && ValidRun(Final(s, a, kmax), b, kmax)
    ensures ValidRun(s, a + b, kmax) && Final(s, a + b, kmax) == Final(Final(s, a, kmax), b, kmax)
    decreases |a|
  {
    hide After;
    if a == [] {
      assert a + b == b;
    } else {
      RunAppend(After(s, a[0]), a[1..], b, kmax);
      OneMove(s, a[0], After(s, a[0]), a[1..] + b, kmax);
      assert a + b == [a[0]] + (a[1..] + b);
    }
  }

  /** The frame is taken by the lower layer, lost, and retransmitted when the timer expires. */
  function Losses(n: nat): seq<Move> {
    if n == 0 then [] else Losses(n - 1) + [Radiated, UplinkLoses(0), AtSender(F.TimerExpires)]
  }

  function HandOver(piece: Segment): seq<Move> {
    [AtSender(F.Prepared(Header(false, false, piece.seg), piece.data)), AtSender(F.Requested)]
  }

  const DELIVERY: seq<Move> := [Radiated, UplinkDelivers(false)]

  const REPORT: seq<Move> := [Reported, DownlinkDelivers]

  /** The report is lost, and the frame, retransmitted when the timer expires, comes a second time. */
  function LostReports(n: nat): seq<Move> {
    if n == 0 then []
    else LostReports(n - 1) + [Reported, DownlinkLoses(0), AtSender(F.TimerExpires)] + DELIVERY
  }

  /** The link with the segment in flight. */
  function Flying(s: Link, piece: Segment, tries: Counter): Link {
    s.(fop := InFlight(s.fop, piece, tries), handed := s.handed + [piece])
  }

  lemma HandOverRuns(s: Link, piece: Segment, kmax: Counter)
    requires Quiet(s)
    ensures ValidRun(s, HandOver(piece), kmax)
    ensures Final(s, HandOver(piece), kmax) == Flying(s, piece, 1)
  {
    RequestTransmits(s.fop, piece);
    hide F.OnRequest, F.OnTimer, F.OnClcw, F.OnDirective, F.OnResponse;
    var run := HandOver(piece);
    var s1 := s.(fop := F.Prepare(s.fop, s.fop.hdr.(seg := piece.seg), piece.data));
    assert s.handed + [] == s.handed;
    assert After(s, run[0]) == s1;
    var s2 := Flying(s, piece, 1);
    assert After(s1, run[1]) == s2;
    assert Enabled(s, run[0], kmax) && Enabled(s1, run[1], kmax);
    hide After, Enabled;
    assert Final(s2, [], kmax) == s2;
    OneMove(s1, run[1], s2, [], kmax);
    OneMove(s, run[0], s1, [run[1]], kmax);
    assert [run[0]] + [run[1]] == run;
  }

  lemma OneLoss(s: Link, piece: Segment, tries: Counter, kmax: Counter)
    requires Quiet(s) && tries <= s.fop.txLim
    ensures var run := [Radiated, UplinkLoses(0), AtSender(F.TimerExpires)];
            && ValidRun(Flying(s, piece, tries), run, kmax)
            && var t := Final(Flying(s, piece, tries), run, kmax);
            && (if tries < s.fop.txLim then t == Flying(s, piece, tries + 1) else t.fop.state == F.Init)
            && t.accepted == s.accepted
  {
    var run := [Radiated, UplinkLoses(0), AtSender(F.TimerExpires)];
    if tries < s.fop.txLim {
      TimerRetransmits(s.fop, piece, tries);
    } else {
      TimerEndsTrying(s.fop, piece);
    }
    var s0 := Flying(s, piece, tries);
    HeadDrained(s0.fop);
    hide F.OnRequest, F.OnTimer, F.OnClcw, F.OnDirective, F.OnResponse;
    var s1 := s0.(fop := s0.fop.(tx := []), air := [FrameOf(s.fop, piece)]);
    assert s.air + [FrameOf(s.fop, piece)] == [FrameOf(s.fop, piece)];
    assert After(s0, run[0]) == s1;
    var s2 := s1.(air := []);
    assert After(s1, run[1]) == s2;
    var s3 := s2.(fop := F.OnTimer(s2.fop));
    assert s2.handed + [] == s2.handed;
    assert After(s2, run[2]) == s3;
    assert Enabled(s0, run[0], kmax) && Enabled(s1, run[1], kmax) && Enabled(s2, run[2], kmax);
    hide After, Enabled;
    assert Final(s3, [], kmax) == s3;
    OneMove(s2, run[2], s3, [], kmax);
    OneMove(s1, run[1], s2, [run[2]], kmax);
    OneMove(s0, run[0], s1, run[1..], kmax);
  }

  lemma {:induction false} LossesRun(s: Link, piece: Segment, n: nat, kmax: Counter)
    requires Quiet(s) && n < s.fop.txLim
    ensures ValidRun(Flying(s, piece, 1), Losses(n), kmax)
    ensures Final(Flying(s, piece, 1), Losses(n), kmax) == Flying(s, piece, n + 1)
  {
    hide Enabled, After, Quiet, Flying;
    if n == 0 {
      assert Losses(n) == [];
    } else {
      LossesRun(s, piece, n - 1, kmax);
      OneLoss(s, piece, n, kmax);
      RunAppend(Flying(s, piece, 1), Losses(n - 1), [Radiated, UplinkLoses(0), AtSender(F.TimerExpires)], kmax);
    }
  }

  /** The link when the segment has been accepted and nobody has heard of it. */
  function Taken(s: Link, piece: Segment, tries: Counter): Link {
    s.(fop := InFlight(s.fop, piece, tries).(tx := []),
       farm := s.farm.(vr := Next(s.farm.vr), retransmit := false),
       accepted := s.accepted + [piece], handed := s.handed + [piece])
  }

  lemma DeliveryRuns(s: Link, piece: Segment, tries: Counter, kmax: Counter)
    requires Quiet(s)
    ensures ValidRun(Flying(s, piece, tries), DELIVERY, kmax)
    ensures Final(Flying(s, piece, tries), DELIVERY, kmax) == Taken(s, piece, tries)
  {
    R.DispatchOnCircle(s.fop.vs, s.farm.vr, s.farm.w);
    var frame := FrameOf(s.fop, piece);
    var s0 := Flying(s, piece, tries);
    HeadDrained(s0.fop);
    hide F.OnRequest, F.OnTimer, F.OnClcw, F.OnDirective, F.OnResponse, R.RegionTaken;
    var s1 := s0.(fop := s0.fop.(tx := []), air := [frame]);
    assert s.air + [frame] == [frame];
    assert After(s0, Radiated) == s1;
    var s2 := Taken(s, piece, tries);
    assert Payload(frame) == piece && s1.air[1..] == [];
    assert After(s1, UplinkDelivers(false)) == s2;
    hide After, Enabled;
    assert Final(s2, [], kmax) == s2;
    OneMove(s1, UplinkDelivers(false), s2, [], kmax);
    OneMove(s0, Radiated, s1, [UplinkDelivers(false)], kmax);
  }

  /** The numbers that the receiver knows again when their frame comes a second time. */
  predicate Recognised(farm: R.FarmVars, ns: Counter) {
    ns != 255 && 2 <= farm.w
  }

  /** The receiver is locked out, and the sender has not heard of it. */
  predicate ListensInVain(s: Link) {
    s.farm.state == R.Lockout && s.farm.lockout && s.fop.state == F.Active && s.down == []
  }

  /** A frame that comes again right after it was accepted is discarded, or locks the receiver out. */
  lemma SecondComing(farm: R.FarmVars, frame: Frame)
    requires farm.state == R.Open && !frame.hdr.typeB && farm.vr == Next(frame.ns)
    ensures R.CommandReadable(frame)
    ensures var (g, r) := R.Receive(farm, frame, false);
            && r == R.Discard && g.vr == farm.vr
            && (if Recognised(farm, frame.ns) then g == farm else g.state == R.Lockout && g.lockout)
  {
    R.DispatchOnCircle(frame.ns, farm.vr, farm.w);
  }

  /** The accepted segment has been retransmitted. */
  function Again(s: Link, piece: Segment, tries: Counter): Link {
    Taken(s, piece, tries).(fop := InFlight(s.fop, piece, tries))
  }

  lemma ReportIsLost(s: Link, piece: Segment, tries: Counter, kmax: Counter)
    requires Quiet(s) && tries < s.fop.txLim
    ensures var run := [Reported, DownlinkLoses(0), AtSender(F.TimerExpires)];
            && ValidRun(Taken(s, piece, tries), run, kmax)
            && Final(Taken(s, piece, tries), run, kmax) == Again(s, piece, tries + 1)
  {
    TimerRetransmits(s.fop, piece, tries);
    var s0 := Taken(s, piece, tries);
    var s1 := s0.(down := [R.Report(s0.farm)]);
    var s2 := Again(s, piece, tries + 1);
    hide F.OnRequest, F.OnTimer, F.OnClcw, F.OnDirective, F.OnResponse;
    assert s.down + s1.down == s1.down && Without(s1.down, 0) == [];
    assert After(s0, Reported) == s1 && After(s1, DownlinkLoses(0)) == s0;
    assert s0.handed + [] == s0.handed;
    assert After(s0, AtSender(F.TimerExpires)) == s2;
    hide After, Enabled;
    assert Final(s2, [], kmax) == s2;
    OneMove(s0, AtSender(F.TimerExpires), s2, [], kmax);
    OneMove(s1, DownlinkLoses(0), s0, [AtSender(F.TimerExpires)], kmax);
    OneMove(s0, Reported, s1, [DownlinkLoses(0), AtSender(F.TimerExpires)], kmax);
  }

  lemma SecondDelivery(s: Link, piece: Segment, tries: Counter, kmax: Counter)
    requires Quiet(s)
    ensures ValidRun(Again(s, piece, tries), DELIVERY, kmax)
    ensures var t := Final(Again(s, piece, tries), DELIVERY, kmax);
            if Recognised(s.farm, s.fop.vs) then t == Taken(s, piece, tries) else ListensInVain(t)
  {
    var frame := FrameOf(s.fop, piece);
    var s0 := Again(s, piece, tries);
    var s1 := s0.(fop := s0.fop.(tx := []), air := [frame]);
    SecondComing(s0.farm, frame);
    HeadDrained(s0.fop);
    hide F.OnRequest, F.OnTimer, F.OnClcw, F.OnDirective, F.OnResponse, R.Receive, R.CommandReadable;
    assert s.air + [frame] == [frame];
    assert After(s0, Radiated) == s1;
    var s2 := s1.(air := s1.air[1..], farm := R.Receive(s0.farm, frame, false).0);
    assert After(s1, UplinkDelivers(false)) == s2;
    hide After, Enabled;
    assert Final(s2, [], kmax) == s2;
    OneMove(s1, UplinkDelivers(false), s2, [], kmax);
    OneMove(s0, Radiated, s1, [UplinkDelivers(false)], kmax);
  }

  lemma OneLostReport(s: Link, piece: Segment, tries: Counter, kmax: Counter)
    requires Quiet(s) && tries < s.fop.txLim
    ensures var run := [Reported, DownlinkLoses(0), AtSender(F.TimerExpires)] + DELIVERY;
            && ValidRun(Taken(s, piece, tries), run, kmax)
            && var t := Final(Taken(s, piece, tries), run, kmax);
            if Recognised(s.farm, s.fop.vs) then t == Taken(s, piece, tries + 1) else ListensInVain(t)
  {
    hide After, Enabled, Taken, Again, Quiet;
    ReportIsLost(s, piece, tries, kmax);
    SecondDelivery(s, piece, tries + 1, kmax);
    RunAppend(Taken(s, piece, tries), [Reported, DownlinkLoses(0), AtSender(F.TimerExpires)], DELIVERY, kmax);
  }

  lemma {:induction false} LostReportsRun(s: Link, piece: Segment, tries: Counter, n: nat, kmax: Counter)
    requires Quiet(s) && tries + n <= s.fop.txLim && (n > 0 ==> Recognised(s.farm, s.fop.vs))
    ensures ValidRun(Taken(s, piece, tries), LostReports(n), kmax)
    ensures Final(Taken(s, piece, tries), LostReports(n), kmax) == Taken(s, piece, tries + n)
  {
    hide Enabled, After, Quiet, Taken;
    if n == 0 {
      assert LostReports(n) == [];
    } else {
      LostReportsRun(s, piece, tries, n - 1, kmax);
      OneLostReport(s, piece, tries + n - 1, kmax);
      var cycle := [Reported, DownlinkLoses(0), AtSender(F.TimerExpires)] + DELIVERY;
      RunAppend(Taken(s, piece, tries), LostReports(n - 1), cycle, kmax);
      assert LostReports(n) == LostReports(n - 1) + cycle;
    }
  }

  /** The link after the segment has arrived and its report has come back. */
  function Arrived(s: Link, piece: Segment): Link {
    Taken(s, piece, 1).(fop := Done(s.fop, piece))
  }

  lemma ArrivedIsQuiet(s: Link, piece: Segment)
    requires Quiet(s)
    ensures Quiet(Arrived(s, piece))
  {
    ReportSettles(s.fop, piece, 1);
    hide F.OnClcw;
  }

  lemma ReportRuns(s: Link, piece: Segment, tries: Counter, kmax: Counter)
    requires Quiet(s)
    ensures ValidRun(Taken(s, piece, tries), REPORT, kmax)
    ensures Final(Taken(s, piece, tries), REPORT, kmax) == Arrived(s, piece) && Quiet(Arrived(s, piece))
  {
    ReportSettles(s.fop, piece, tries);
    ArrivedIsQuiet(s, piece);
    hide F.OnRequest, F.OnTimer, F.OnClcw, F.OnDirective, F.OnResponse, InFlight, Done, QuietSender;
    var s0 := Taken(s, piece, tries);
    var s1 := s0.(down := [Clcw(false, false, false, Next(s.fop.vs))]);
    assert s.down + s1.down == s1.down && s1.down[1..] == s.down;
    assert s.fop.vs == s.farm.vr && After(s0, Reported) == s1;
    assert After(s1, DownlinkDelivers) == Arrived(s, piece);
    assert Enabled(s0, Reported, kmax) && Enabled(s1, DownlinkDelivers, kmax);
    hide After, Enabled, Quiet, Taken, Arrived;
    assert Final(Arrived(s, piece), [], kmax) == Arrived(s, piece);
    OneMove(s1, DownlinkDelivers, Arrived(s, piece), [], kmax);
    OneMove(s0, Reported, s1, [DownlinkDelivers], kmax);
  }

  /** What strikes one segment: its frame is lost so many times, and then its report. */
  datatype Strikes = Strikes(frames: nat, reports: nat)

  /** Handing a segment over, and getting it and its report through in spite of that. */
  function Attempt(piece: Segment, hit: Strikes): seq<Move> {
    HandOver(piece) + Losses(hit.frames) + DELIVERY + LostReports(hit.reports) + REPORT
  }

  /** Fewer strikes than the transmission limit, and none at a report whose frame would not be known
      again. */
  predicate Survivable(hit: Strikes, txLim: nat, farm: R.FarmVars, ns: Counter) {
    hit.frames + hit.reports < txLim && (hit.reports > 0 ==> Recognised(farm, ns))
  }

  /** A segment so struck arrives once, and leaves the link as quiet as before. */
  lemma SegmentSurvivesLosses(s: Link, piece: Segment, hit: Strikes, kmax: Counter)
    requires Quiet(s) && Survivable(hit, s.fop.txLim, s.farm, s.fop.vs)
    ensures ValidRun(s, Attempt(piece, hit), kmax)
    ensures var t := Final(s, Attempt(piece, hit), kmax);
            && Quiet(t) && t.accepted == s.accepted + [piece]
            && t.fop.txLim == s.fop.txLim && t.farm.w == s.farm.w && t.fop.vs == Next(s.fop.vs)
  {
    hide Enabled, After, Quiet, Flying, HandOver, Losses, LostReports, InFlight, Final, ValidRun, F.OnRequest, F.OnClcw,
         F.OnTimer, R.Receive;
    var tries := hit.frames + 1;
    HandOverRuns(s, piece, kmax);
    LossesRun(s, piece, hit.frames, kmax);
    DeliveryRuns(s, piece, tries, kmax);
    LostReportsRun(s, piece, tries, hit.reports, kmax);
    ReportRuns(s, piece, tries + hit.reports, kmax);
    var begun := HandOver(piece) + Losses(hit.frames);
    RunAppend(s, HandOver(piece), Losses(hit.frames), kmax);
    RunAppend(s, begun, DELIVERY, kmax);
    RunAppend(s, begun + DELIVERY, LostReports(hit.reports), kmax);
    RunAppend(s, begun + DELIVERY + LostReports(hit.reports), REPORT, kmax);
  }

  /** A report lost that is not survivable: the frame comes again and locks the receiver out. */
  lemma LostReportLocksOut(s: Link, piece: Segment, kmax: Counter)
    requires Quiet(s) && 1 < s.fop.txLim && !Recognised(s.farm, s.fop.vs)
    ensures var run := HandOver(piece) + DELIVERY + LostReports(1);
            && ValidRun(s, run, kmax)
            && ListensInVain(Final(s, run, kmax))
  {
    hide Enabled, After, Flying, HandOver, InFlight, Final, ValidRun, R.Consistent, R.Configured, R.Receive;
    var cycle := [Reported, DownlinkLoses(0), AtSender(F.TimerExpires)] + DELIVERY;
    assert LostReports(0) == [] && LostReports(1) == [] + cycle == cycle;
    HandOverRuns(s, piece, kmax);
    DeliveryRuns(s, piece, 1, kmax);
    OneLostReport(s, piece, 1, kmax);
    RunAppend(s, HandOver(piece), DELIVERY, kmax);
    RunAppend(s, HandOver(piece) + DELIVERY, cycle, kmax);
  }

  /** Lost as many times as the limit says, it ends or suspends the session and does not arrive. */
  lemma LimitEndsSession(s: Link, piece: Segment, kmax: Counter)
    requires Quiet(s)
    ensures var run := HandOver(piece) + Losses(s.fop.txLim);
            && ValidRun(s, run, kmax)
            && Final(s, run, kmax).fop.state == F.Init && Final(s, run, kmax).accepted == s.accepted
  {
    hide Enabled, After, Flying, HandOver, InFlight, Final, ValidRun, R.Consistent, R.Configured;
    var n := s.fop.txLim;
    HandOverRuns(s, piece, kmax);
    LossesRun(s, piece, n - 1, kmax);
    OneLoss(s, piece, n, kmax);
    var last := [Radiated, UplinkLoses(0), AtSender(F.TimerExpires)];
    RunAppend(Flying(s, piece, 1), Losses(n - 1), last, kmax);
    RunAppend(s, HandOver(piece), Losses(n), kmax);
  }

  /** One segment after the other, the i-th struck as `hits[i]` says. */
  function Attempts(pieces: seq<Segment>, hits: seq<Strikes>): seq<Move>
    requires |hits| == |pieces|
  {
    if pieces == [] then [] else Attempt(pieces[0], hits[0]) + Attempts(pieces[1..], hits[1..])
  }

  predicate AllSurvivable(hits: seq<Strikes>, txLim: nat, farm: R.FarmVars, vs: Counter) {
    forall i :: 0 <= i < |hits| ==> Survivable(hits[i], txLim, farm, (vs + i) % 256)
  }

  lemma RestSurvivable(hits: seq<Strikes>, txLim: nat, farm: R.FarmVars, farm': R.FarmVars, vs: Counter)
    requires AllSurvivable(hits, txLim, farm, vs) && hits != [] && farm'.w == farm.w
    ensures Survivable(hits[0], txLim, farm, vs) && AllSurvivable(hits[1..], txLim, farm', Next(vs))
  {
    assert hits[0] == hits[..][0] && (vs + 0) % 256 == vs;
    forall i | 0 <= i < |hits[1..]| ensures Survivable(hits[1..][i], txLim, farm', (Next(vs) + i) % 256) {
      assert Survivable(hits[i + 1], txLim, farm, (vs + (i + 1)) % 256);
    }
  }

  /** From a quiet link every list of segments gets through, each once and in order, whatever survivable
      losses strike them. */
  lemma {:induction false} EverySegmentArrives(s: Link, pieces: seq<Segment>, hits: seq<Strikes>, kmax: Counter)
    requires Quiet(s) && |hits| == |pieces| && AllSurvivable(hits, s.fop.txLim, s.farm, s.fop.vs)
    ensures ValidRun(s, Attempts(pieces, hits), kmax)
    ensures var t := Final(s, Attempts(pieces, hits), kmax);
            Quiet(t) && t.accepted == s.accepted + pieces
    decreases |pieces|
  {
    hide After, Quiet, Attempt, Survivable, AllSurvivable;
    if pieces == [] {
      assert s.accepted + pieces == s.accepted;
    } else {
      var first := Attempt(pieces[0], hits[0]);
      RestSurvivable(hits, s.fop.txLim, s.farm, s.farm, s.fop.vs);
      SegmentSurvivesLosses(s, pieces[0], hits[0], kmax);
      var t := Final(s, first, kmax);
      RestSurvivable(hits, s.fop.txLim, s.farm, t.farm, s.fop.vs);
      EverySegmentArrives(t, pieces[1..], hits[1..], kmax);
      RunAppend(s, first, Attempts(pieces[1..], hits[1..]), kmax);
      assert s.accepted + [pieces[0]] + pieces[1..] == s.accepted + pieces;
    }
  }

  // ---------------------------------------------------------------------------------------
  // A whole window at once
  // ---------------------------------------------------------------------------------------

  /** The frames of segments sent one after the other, from V(S) = `vs` on. */
  function FramesFrom(vs: Counter, pieces: seq<Segment>): (frames: seq<Frame>)
    ensures |frames| == |pieces|
  {
    seq(|pieces|, i requires 0 <= i < |pieces| =>
      Frame(Header(false, false, pieces[i].seg), (vs + i) % 256, pieces[i].data))
  }

  function Items(frames: seq<Frame>): (items: seq<F.Item>)
    ensures |items| == |frames|
    ensures forall i :: 0 <= i < |items| ==> items[i] == F.Item(frames[i], false, frames[i].ns, false)
  {
    seq(|frames|, i requires 0 <= i < |frames| => F.Item(frames[i], false, frames[i].ns, false))
  }

  /** All the segments are outstanding, and the lower layer has taken their frames. */
  function Out(f: F.FopVars, pieces: seq<Segment>): F.FopVars {
    if pieces == [] then f
    else
      var last := pieces[|pieces| - 1];
      f.(hdr := Header(false, false, last.seg), data := last.data, vs := (f.vs + |pieces|) % 256, txCnt := 1,
         sent := Items(FramesFrom(f.vs, pieces)), log := f.log + pieces)
  }

  /** A request that finds nothing marked and the window open is transmitted. */
  lemma RequestGoesOut(g: F.FopVars)
    requires g.state == F.Active && !g.hdr.typeB && g.wait == [] && F.FirstMarked(g.sent) == |g.sent|
    requires Distance(g.vs, g.nnr) < g.wnd
    ensures F.OnRequest(g).0 == F.TransmitAd(g.(wait := [F.Request(g.hdr, g.data)])).0
  {
    hide F.FirstMarked, F.TransmitAd, F.ResetRt;
  }

  lemma ItemsGrow(vs: Counter, pieces: seq<Segment>, piece: Segment)
    ensures var all := pieces + [piece];
            var frame := FramesFrom(vs, all)[|pieces|];
            && frame == Frame(Header(false, false, piece.seg), (vs + |pieces|) % 256, piece.data)
            && FramesFrom(vs, all) == FramesFrom(vs, pieces) + [frame]
            && Items(FramesFrom(vs, all)) == Items(FramesFrom(vs, pieces)) + [F.Item(frame, false, frame.ns, false)]
  {
  }

  lemma OutFacts(f: F.FopVars, pieces: seq<Segment>)
    requires QuietSender(f) && |pieces| < 255
    ensures var g := Out(f, pieces);
            && g.state == F.Active && g.wait == [] && g.tx == [] && |g.sent| == |pieces|
            && F.FirstMarked(g.sent) == |g.sent| && Distance(g.vs, g.nnr) == |pieces|
            && g.wnd == f.wnd && g.sentCap == f.sentCap && g.txCap == f.txCap && (g.sent != [] ==> g.txCnt == 1)
  {
    hide F.FirstMarked;
  }

  lemma OutGrows(f: F.FopVars, pieces: seq<Segment>, piece: Segment)
    requires QuietSender(f)
    ensures var g := Out(f, pieces);
            var frame := Frame(Header(false, false, piece.seg), g.vs, piece.data);
            var all := pieces + [piece];
            && FramesFrom(f.vs, all)[|pieces|] == frame
            && Out(f, all) == g.(hdr := frame.hdr, data := piece.data, vs := Next(g.vs), txCnt := 1,
                                 sent := g.sent + [F.Item(frame, false, g.vs, false)], log := g.log + [piece])
  {
    ItemsGrow(f.vs, pieces, piece);
    hide Items, FramesFrom, QuietSender;
    var all := pieces + [piece];
    assert |all| == |pieces| + 1 && all[|all| - 1] == piece;
    NextOf(f.vs, |pieces|);
    hide Next;
    if pieces == [] {
      NoItems(f.vs);
      assert all == [piece] && f.log + all == f.log + [piece] && f.sent == [] by { SentNothing(f); }
    } else {
      assert f.log + pieces + [piece] == f.log + all;
    }
  }

  lemma SentNothing(f: F.FopVars)
    requires QuietSender(f)
    ensures f.sent == []
  {
  }

  lemma NextOf(vs: Counter, n: nat)
    ensures Next((vs + n) % 256) == (vs + (n + 1)) % 256
  {
  }

  lemma OneMoreOut(f: F.FopVars, pieces: seq<Segment>, piece: Segment)
    requires QuietSender(f) && |pieces| < f.wnd && |pieces| < f.sentCap
    ensures var g := F.Prepare(Out(f, pieces), Header(false, false, piece.seg), piece.data);
            var all := pieces + [piece];
            F.OnRequest(g).0 == Out(f, all).(tx := [FramesFrom(f.vs, all)[|pieces|]])
  {
    hide F.FirstMarked, F.Leading, F.OnRequest, F.TransmitAd, FramesFrom, Out, Items;
    OutFacts(f, pieces);
    OutGrows(f, pieces, piece);
    var g := F.Prepare(Out(f, pieces), Header(false, false, piece.seg), piece.data);
    RequestGoesOut(g);
    var h := g.(wait := [F.Request(g.hdr, g.data)]);
    TransmitJoins(h);
    var frame := F.Pack(h, h.wait[0].data);
    assert h.wait[1..] == [] && h.tx + [frame] == [frame];
  }

  lemma TransmitJoins(h: F.FopVars)
    requires h.wait != [] && |h.sent| < h.sentCap && |h.tx| < h.txCap
    ensures var frame := F.Pack(h, h.wait[0].data);
            F.TransmitAd(h).0
               == h.(wait := h.wait[1..], txCnt := if h.sent == [] then 1 else h.txCnt, vs := Next(h.vs),
                     log := h.log + [Payload(frame)], sent := h.sent + [F.Item(frame, false, h.vs, false)],
                     tx := h.tx + [frame])
  {
  }

  lemma NoItems(vs: Counter)
    ensures Items(FramesFrom(vs, [])) == []
  {
    assert FramesFrom(vs, []) == [];
  }

  lemma LeadingAll(f: F.FopVars, pieces: seq<Segment>)
    requires QuietSender(f) && 0 < |pieces| <= 255
    ensures var g := Out(f, pieces); F.Leading(g.sent, g.vs) == |g.sent| == |pieces|
  {
    hide F.Leading;
    var g := Out(f, pieces);
    forall i | 0 <= i < |g.sent| ensures g.sent[i].seqNum != g.vs {
      assert g.sent[i].seqNum == (f.vs + i) % 256;
    }
  }

  lemma AllAcknowledged(f: F.FopVars, pieces: seq<Segment>)
    requires QuietSender(f) && 0 < |pieces| <= f.wnd
    ensures var nr := (f.vs + |pieces|) % 256;
            var g := F.OnClcw(Out(f, pieces), Clcw(false, false, false, nr));
            g == Out(f, pieces).(sent := [], nnr := nr) && QuietSender(g) && g.vs == g.nnr == nr
  {
    hide F.Leading, F.FirstMarked, F.OnClcw, Items, FramesFrom;
    LeadingAll(f, pieces);
    NumberMoved(f.vs, |pieces|);
    EverythingAcknowledged(Out(f, pieces));
  }

  lemma NumberMoved(vs: Counter, n: nat)
    requires 0 < n <= 255
    ensures (vs + n) % 256 != vs
  {
  }

  /** A report acknowledges all of the sent queue and finds nothing else to send. */
  lemma EverythingAcknowledged(g: F.FopVars)
    requires g.state == F.Active && g.wait == [] && g.vs != g.nnr && F.Leading(g.sent, g.vs) == |g.sent| > 0
    requires |g.sent| <= g.wnd
    ensures F.OnClcw(g, Clcw(false, false, false, g.vs)) == g.(sent := [], nnr := g.vs, txCnt := 1)
  {
    hide F.Leading, F.FirstMarked;
    var c := Clcw(false, false, false, g.vs);
    var h := g.(sent := [], nnr := g.vs, txCnt := 1);
    assert g.sent[|g.sent|..] == [];
    assert F.RemoveAcked(g, c.nr) == h;
    assert F.ClcwEvent(g, c) == F.E2;
    hide F.RemoveAcked, F.RetryAd, F.RetryBc, F.LookForDirective, F.ClcwEvent;
    assert F.FirstMarked(h.sent) == 0;
    assert F.LookForFdu(h) == (h, F.Ignored);
  }

  /** Every segment is handed over and its frame taken at once; then all the frames arrive. */
  function Sendings(pieces: seq<Segment>): seq<Move> {
    if pieces == [] then []
    else Sendings(pieces[..|pieces| - 1]) + HandOver(pieces[|pieces| - 1]) + [Radiated]
  }

  function Deliveries(n: nat): seq<Move> {
    if n == 0 then [] else Deliveries(n - 1) + [UplinkDelivers(false)]
  }

  /** All on the way, and the first `n` of them accepted. */
  function Aloft(s: Link, pieces: seq<Segment>, n: nat): Link
    requires n <= |pieces|
  {
    s.(fop := Out(s.fop, pieces), air := FramesFrom(s.fop.vs, pieces)[n..], handed := s.handed + pieces,
       farm := if n == 0 then s.farm else s.farm.(vr := (s.farm.vr + n) % 256, retransmit := false),
       accepted := s.accepted + pieces[..n])
  }

  /** The segment after those is with the sender, its frame not taken yet. */
  function Handed(s: Link, pieces: seq<Segment>, piece: Segment): Link {
    var all := pieces + [piece];
    Aloft(s, pieces, 0).(fop := Out(s.fop, all).(tx := [FramesFrom(s.fop.vs, all)[|pieces|]]), handed := s.handed + all)
  }

  lemma HandingOver(s: Link, pieces: seq<Segment>, piece: Segment, kmax: Counter)
    requires Quiet(s) && |pieces| < s.fop.wnd && |pieces| < s.fop.sentCap
    ensures ValidRun(Aloft(s, pieces, 0), HandOver(piece), kmax)
    ensures Final(Aloft(s, pieces, 0), HandOver(piece), kmax) == Handed(s, pieces, piece)
  {
    OneMoreOut(s.fop, pieces, piece);
    NotRejected(s.fop, pieces, piece);
    hide F.OnRequest, F.OnTimer, F.OnClcw, F.OnDirective, F.OnResponse, Out, FramesFrom, Quiet;
    var prepare := AtSender(F.Prepared(Header(false, false, piece.seg), piece.data));
    var s0 := Aloft(s, pieces, 0);
    var s1 := s0.(fop := F.Prepare(s0.fop, Header(false, false, piece.seg), piece.data));
    var s2 := Handed(s, pieces, piece);
    assert s0.handed + [] == s0.handed;
    assert Enabled(s0, prepare, kmax) && After(s0, prepare) == s1;
    assert s.handed + pieces + [piece] == s.handed + (pieces + [piece]);
    assert After(s1, AtSender(F.Requested)) == s2;
    hide After, Enabled, Aloft;
    assert Final(s2, [], kmax) == s2;
    OneMove(s1, AtSender(F.Requested), s2, [], kmax);
    OneMove(s0, prepare, s1, [AtSender(F.Requested)], kmax);
    assert HandOver(piece) == [prepare] + [AtSender(F.Requested)];
  }

  lemma OneSending(s: Link, pieces: seq<Segment>, piece: Segment, kmax: Counter)
    requires Quiet(s) && |pieces| < s.fop.wnd && |pieces| < s.fop.sentCap
    ensures var run := HandOver(piece) + [Radiated];
            && ValidRun(Aloft(s, pieces, 0), run, kmax)
            && Final(Aloft(s, pieces, 0), run, kmax) == Aloft(s, pieces + [piece], 0)
  {
    hide F.OnRequest, F.OnTimer, F.OnClcw, F.OnDirective, F.OnResponse, Out, HandOver, Items;
    var all := pieces + [piece];
    var s2, s3 := Handed(s, pieces, piece), Aloft(s, all, 0);
    HandingOver(s, pieces, piece, kmax);
    ItemsGrow(s.fop.vs, pieces, piece);
    OutIsTaken(s.fop, all);
    HeadDrained(s2.fop);
    hide FramesFrom;
    assert s2.air + [s2.fop.tx[0]] == s3.air && pieces[..0] == all[..0];
    assert After(s2, Radiated) == s3;
    assert Enabled(s2, Radiated, kmax);
    hide After, Enabled, Aloft, Handed;
    assert Final(s3, [], kmax) == s3;
    OneMove(s2, Radiated, s3, [], kmax);
    assert [Radiated] + [] == [Radiated];
    RunAppend(Aloft(s, pieces, 0), HandOver(piece), [Radiated], kmax);
  }

  lemma OutIsTaken(f: F.FopVars, pieces: seq<Segment>)
    requires f.tx == []
    ensures Out(f, pieces).tx == []
  {
  }

  lemma NotRejected(f: F.FopVars, pieces: seq<Segment>, piece: Segment)
    requires QuietSender(f)
    ensures var g := F.Prepare(Out(f, pieces), Header(false, false, piece.seg), piece.data);
            g.state == F.Active && g.wait == [] && F.OnRequest(g).1 != F.Rejected
  {
    hide F.LookForFdu;
  }

  lemma {:induction false} SendingsRun(s: Link, pieces: seq<Segment>, kmax: Counter)
    requires Quiet(s) && |pieces| <= s.fop.wnd && |pieces| <= s.fop.sentCap
    ensures ValidRun(s, Sendings(pieces), kmax) && Final(s, Sendings(pieces), kmax) == Aloft(s, pieces, 0)
    decreases |pieces|
  {
    hide Enabled, After, HandOver;
    if pieces == [] {
      assert FramesFrom(s.fop.vs, []) == [];
      assert s.handed + [] == s.handed && s.accepted + [] == s.accepted;
      assert Aloft(s, [], 0) == s;
    } else {
      var front, last := pieces[..|pieces| - 1], pieces[|pieces| - 1];
      assert front + [last] == pieces;
      SendingsRun(s, front, kmax);
      OneSending(s, front, last, kmax);
      hide Quiet, Aloft;
      RunAppend(s, Sendings(front), HandOver(last) + [Radiated], kmax);
      assert Sendings(front) + HandOver(last) + [Radiated] == Sendings(front) + (HandOver(last) + [Radiated]);
    }
  }

  lemma TakesNext(farm: R.FarmVars, frame: Frame)
    requires farm.state == R.Open && !frame.hdr.typeB && frame.ns == farm.vr
    ensures R.CommandReadable(frame)
    ensures R.Receive(farm, frame, false) == (farm.(vr := Next(farm.vr), retransmit := false), R.Enq)
  {
    R.DispatchOnCircle(frame.ns, farm.vr, farm.w);
    hide R.RegionTaken;
  }

  lemma AloftMoves(s: Link, pieces: seq<Segment>, n: nat)
    requires Quiet(s) && n < |pieces| <= 255
    ensures var s0, s1 := Aloft(s, pieces, n), Aloft(s, pieces, n + 1);
            && s0.air != [] && s0.farm.state == R.Open && !s0.air[0].hdr.typeB && s0.air[0].ns == s0.farm.vr
            && s1 == s0.(air := s0.air[1..], farm := s0.farm.(vr := Next(s0.farm.vr), retransmit := false),
                         accepted := s0.accepted + [Payload(s0.air[0])])
  {
    hide Out;
    NextOf(s.farm.vr, n);
    var s0, s1 := Aloft(s, pieces, n), Aloft(s, pieces, n + 1);
    assert s0.air[1..] == s1.air && pieces[..n] + [pieces[n]] == pieces[..n + 1];
    assert s0.accepted + [Payload(s0.air[0])] == s1.accepted;
  }

  lemma OneDelivery(s: Link, pieces: seq<Segment>, n: nat, kmax: Counter)
    requires Quiet(s) && n < |pieces| <= 255
    ensures ValidRun(Aloft(s, pieces, n), [UplinkDelivers(false)], kmax)
    ensures Final(Aloft(s, pieces, n), [UplinkDelivers(false)], kmax) == Aloft(s, pieces, n + 1)
  {
    hide F.FopStep, Quiet, Aloft, R.Receive, R.CommandReadable;
    var s0, s1 := Aloft(s, pieces, n), Aloft(s, pieces, n + 1);
    AloftMoves(s, pieces, n);
    TakesNext(s0.farm, s0.air[0]);
    assert After(s0, UplinkDelivers(false)) == s1;
    assert Enabled(s0, UplinkDelivers(false), kmax);
    hide After, Enabled;
    assert Final(s1, [], kmax) == s1;
    OneMove(s0, UplinkDelivers(false), s1, [], kmax);
  }

  lemma {:induction false} DeliveriesRun(s: Link, pieces: seq<Segment>, n: nat, kmax: Counter)
    requires Quiet(s) && n <= |pieces| <= 255
    ensures ValidRun(Aloft(s, pieces, 0), Deliveries(n), kmax)
    ensures Final(Aloft(s, pieces, 0), Deliveries(n), kmax) == Aloft(s, pieces, n)
  {
    hide Enabled, After, Quiet, Aloft;
    if n > 0 {
      DeliveriesRun(s, pieces, n - 1, kmax);
      OneDelivery(s, pieces, n - 1, kmax);
      RunAppend(Aloft(s, pieces, 0), Deliveries(n - 1), [UplinkDelivers(false)], kmax);
    }
  }

  /** All have arrived and are acknowledged. */
  function Landed(s: Link, pieces: seq<Segment>): Link {
    Aloft(s, pieces, |pieces|).(
      fop := F.OnClcw(Out(s.fop, pieces), Clcw(false, false, false, (s.fop.vs + |pieces|) % 256)))
  }

  lemma LandedIsQuiet(s: Link, pieces: seq<Segment>)
    requires Quiet(s) && 0 < |pieces| <= s.fop.wnd
    ensures var t := Landed(s, pieces);
            Quiet(t) && t.accepted == s.accepted + pieces && t.handed == s.handed + pieces
  {
    hide F.OnClcw, Out, QuietSender;
    AllAcknowledged(s.fop, pieces);
    assert pieces[..|pieces|] == pieces;
  }

  lemma WindowReported(s: Link, pieces: seq<Segment>, kmax: Counter)
    requires Quiet(s) && 0 < |pieces| <= s.fop.wnd
    ensures ValidRun(Aloft(s, pieces, |pieces|), REPORT, kmax)
    ensures Final(Aloft(s, pieces, |pieces|), REPORT, kmax) == Landed(s, pieces)
  {
    hide F.OnRequest, F.OnTimer, F.OnClcw, F.OnDirective, F.OnResponse, Out, FramesFrom, QuietSender;
    var s0 := Aloft(s, pieces, |pieces|);
    var c := Clcw(false, false, false, (s.fop.vs + |pieces|) % 256);
    var s1 := s0.(down := [c]);
    assert s.down + [c] == [c] && s1.down[1..] == [];
    assert After(s0, Reported) == s1;
    assert After(s1, DownlinkDelivers) == Landed(s, pieces);
    hide After, Enabled;
    assert Final(Landed(s, pieces), [], kmax) == Landed(s, pieces);
    OneMove(s1, DownlinkDelivers, Landed(s, pieces), [], kmax);
    OneMove(s0, Reported, s1, [DownlinkDelivers], kmax);
  }

  /** As many segments as the window allows may be on their way together; one report acknowledges them
      all, and the link is quiet again. */
  lemma WholeWindowArrives(s: Link, pieces: seq<Segment>, kmax: Counter)
    requires Quiet(s) && 0 < |pieces| <= s.fop.wnd && |pieces| <= s.fop.sentCap
    ensures var run := Sendings(pieces) + Deliveries(|pieces|) + REPORT;
            && ValidRun(s, run, kmax)
            && var t := Final(s, run, kmax);
            Quiet(t) && t.accepted == s.accepted + pieces
  {
    hide Enabled, After, Quiet, Aloft, Landed, Final, ValidRun;
    SendingsRun(s, pieces, kmax);
    DeliveriesRun(s, pieces, |pieces|, kmax);
    WindowReported(s, pieces, kmax);
    LandedIsQuiet(s, pieces);
    RunAppend(s, Sendings(pieces), Deliveries(|pieces|), kmax);
    RunAppend(s, Sendings(pieces) + Deliveries(|pieces|), REPORT, kmax);
  }
}
