/** Runs in which the closed loop meets a loss: a frame lost in front of another one, a whole window lost,
    and a receiver that is locked out; and one in which a frame of the expedited service goes through. */
module Recovery {
  import opened Octets
  import opened CopTypes
  import F = FopTable
  import W = FopWindow
  import M = FopMeaning
  import U = FopUplink
  import L = FopLimits
  import R = Farm
  import opened ClosedLoop
  import opened Progress

  // ---------------------------------------------------------------------------------------
  // A locked-out receiver
  // ---------------------------------------------------------------------------------------

  function Hear(n: nat): seq<Move> {
    if n == 0 then [] else [DownlinkDelivers] + Hear(n - 1)
  }

  /** The sender hears of nothing any more. */
  predicate Stopped(f: F.FopVars) {
    f.state == F.Init && f.sent == [] && f.wait == []
  }

  lemma HearsOne(f: F.FopVars, c: Clcw)
    requires W.Open(f.state) || Stopped(f)
    ensures var g := F.FopStep(f, F.ClcwArrives(c));
            (W.Open(g.state) || Stopped(g)) && (c.lockout || Stopped(f) ==> Stopped(g))
  {
    if W.Open(f.state) {
      M.ReportStates(f, c);
      hide M.Selects;
    } else {
      W.InitIgnores(f, c);
    }
    hide F.OnClcw, F.OnTimer, F.OnRequest, F.OnDirective, F.OnResponse;
  }

  lemma {:induction false} HearsAll(s: Link, kmax: Counter)
    requires (W.Open(s.fop.state) && s.down != [] && s.down[|s.down| - 1].lockout) || Stopped(s.fop)
    ensures ValidRun(s, Hear(|s.down|), kmax)
    ensures var t := Final(s, Hear(|s.down|), kmax);
            Stopped(t.fop) && t.farm == s.farm && t.air == s.air && t.accepted == s.accepted
    decreases |s.down|
  {
    hide F.FopStep;
    if s.down != [] {
      var t := After(s, DownlinkDelivers);
      HearsOne(s.fop, s.down[0]);
      HearsAll(t, kmax);
      hide After;
      OneMove(s, DownlinkDelivers, t, Hear(|s.down| - 1), kmax);
    }
  }

  /** Once the receiver is locked out, its next report ends an open session, whatever older reports are
      heard before it. */
  lemma LockoutIsHeard(s: Link, kmax: Counter)
    requires s.farm.lockout && W.Open(s.fop.state)
    ensures var run := [Reported] + Hear(|s.down| + 1);
            && ValidRun(s, run, kmax)
            && Stopped(Final(s, run, kmax).fop) && Final(s, run, kmax).farm == s.farm
  {
    var t := After(s, Reported);
    HearsAll(t, kmax);
    hide After;
    OneMove(s, Reported, t, Hear(|s.down| + 1), kmax);
  }

  /** So it ends from every quiet link in which the receiver does not know the next frame again: one lost
      report, the frame a second time, and one report more. */
  lemma LockoutEndsSession(s: Link, piece: Segment, kmax: Counter)
    requires Quiet(s) && 1 < s.fop.txLim && !Recognised(s.farm, s.fop.vs)
    ensures var run := HandOver(piece) + DELIVERY + LostReports(1) + REPORT;
            && ValidRun(s, run, kmax)
            && Stopped(Final(s, run, kmax).fop) && Final(s, run, kmax).farm.state == R.Lockout
  {
    hide Quiet, After, Enabled, HandOver, LostReports;
    LostReportLocksOut(s, piece, kmax);
    var begun := HandOver(piece) + DELIVERY + LostReports(1);
    LockoutIsHeard(Final(s, begun, kmax), kmax);
    assert Hear(0) == [] && Hear(1) == [DownlinkDelivers] + Hear(0) && [Reported] + Hear(1) == REPORT;
    RunAppend(s, begun, REPORT, kmax);
  }

  // ---------------------------------------------------------------------------------------
  // A window of segments on its way
  // ---------------------------------------------------------------------------------------

  /** The number the session would have begun with. */
  function Base(f: F.FopVars): Counter {
    (f.vs - |f.log|) % 256
  }

  lemma NumberFromBase(f: F.FopVars, i: nat)
    ensures W.Number(Base(f), |f.log| + i) == (f.vs + i) % 256
  {
    ModAdd(f.vs, |f.log|, i);
  }

  lemma ModAdd(vs: int, n: nat, i: nat)
    ensures ((vs - n) % 256 + (n + i)) % 256 == (vs + i) % 256
  {
  }

  /** Sent for the `tries`-th time, all the segments are outstanding. */
  function OutAgain(f: F.FopVars, pieces: seq<Segment>, tries: Counter): F.FopVars {
    Out(f, pieces).(txCnt := tries)
  }

  lemma OutInWindow(f: F.FopVars, pieces: seq<Segment>, tries: Counter)
    requires QuietSender(f) && 0 < |pieces| <= f.wnd <= f.sentCap
    ensures var g := OutAgain(f, pieces, tries);
            && W.Window(g, Base(f)) && W.Acked(g) == |f.log| && |g.sent| == |pieces|
            && U.WithMarks(g.sent, |pieces|) == g.sent
            && g.state == F.Active && g.wait == [] && g.tx == [] && g.timeoutType == f.timeoutType
            && g.txLim == f.txLim && g.txCap == f.txCap && g.log == f.log + pieces
    ensures forall i :: 0 <= i < |pieces| ==>
              W.FrameAt(Base(f), f.log + pieces, |f.log| + i) == FramesFrom(f.vs, pieces)[i]
  {
    hide Base, W.Number;
    var g := OutAgain(f, pieces, tries);
    forall i | 0 <= i < |pieces|
      ensures W.FrameAt(Base(f), f.log + pieces, |f.log| + i) == FramesFrom(f.vs, pieces)[i]
      ensures W.ItemAt(g.sent[i], Base(f), g.log, |f.log| + i)
    {
      NumberFromBase(f, i);
    }
    NumberFromBase(f, 0);
    NumberFromBase(f, |pieces|);
  }

  // ---------------------------------------------------------------------------------------
  // A frame lost in front of another one
  // ---------------------------------------------------------------------------------------

  const GAP: seq<Move> := [UplinkLoses(0), UplinkDelivers(false), Reported, DownlinkDelivers]

  /** The receiver gets the frame after the one it expects. */
  lemma AheadByOne(farm: R.FarmVars, frame: Frame)
    requires R.Configured(farm) && R.Consistent(farm) && farm.state == R.Open && 4 <= farm.w
    requires !frame.hdr.typeB && frame.ns == Next(farm.vr)
    ensures R.CommandReadable(frame)
    ensures var (g, r) := R.Receive(farm, frame, false);
            && r == R.Discard && g.vr == farm.vr && !g.wait
            && (g.lockout || g.retransmit) && (farm.vr != 255 ==> g == farm.(retransmit := true))
  {
    R.DispatchOnCircle(frame.ns, farm.vr, farm.w);
    hide R.RegionTaken;
  }

  lemma GapIsReported(f: F.FopVars, a: Segment, b: Segment, c: Clcw)
    requires QuietSender(f) && 2 <= f.wnd <= f.sentCap && 2 <= f.txLim
    requires c.nr == f.vs && !c.wait && (c.lockout || c.retransmit) && (f.vs <= 253 ==> !c.lockout)
    ensures var g := F.FopStep(Out(f, [a, b]), F.ClcwArrives(c));
            if f.vs <= 253 then g.state == F.RtNoWait && g.tx == [FrameOf(f, a)] && |g.sent| == 2 else Stopped(g)
  {
    var h := Out(f, [a, b]);
    OutInWindow(f, [a, b], 1);
    TwoAhead(f.vs);
    M.ReportStates(h, c);
    hide W.Window, F.OnClcw, F.OnTimer, F.OnRequest, F.OnDirective, F.OnResponse;
    if f.vs <= 253 {
      M.ReportQueues(h, Base(f), c);
    }
  }

  lemma TwoAhead(vs: Counter)
    ensures (vs + 2) % 256 != vs && ((vs + 2) % 256 < vs <==> vs > 253) && F.InRange(vs, (vs + 2) % 256, vs)
  {
  }

  /** Two segments are sent, the first is lost, the second arrives and is discarded, and one report tells of
      it: the sender retransmits, beginning with the first. Once V(S) has wrapped the report is not
      believed, or the receiver is locked out, and the session ends instead. */
  lemma GapIsAskedFor(s: Link, a: Segment, b: Segment, kmax: Counter)
    requires Quiet(s) && 2 <= s.fop.wnd <= s.fop.sentCap && 2 <= s.fop.txLim && 4 <= s.farm.w
    ensures var run := Sendings([a, b]) + GAP;
            && ValidRun(s, run, kmax)
            && var t := Final(s, run, kmax);
            && t.accepted == s.accepted && t.air == [] && (t.farm.retransmit || t.farm.lockout)
            && (if s.fop.vs <= 253
                then t.fop.state == F.RtNoWait && t.fop.tx == [FrameOf(s.fop, a)] && |t.fop.sent| == 2
                else Stopped(t.fop))
  {
    hide Enabled, After, HandOver, F.FopStep, Out, QuietSender, R.Receive, R.CommandReadable, FrameOf;
    SendingsRun(s, [a, b], kmax);
    var s0 := Aloft(s, [a, b], 0);
    GapRuns(s, a, b, kmax);
    RunAppend(s, Sendings([a, b]), GAP, kmax);
  }

  lemma GapRuns(s: Link, a: Segment, b: Segment, kmax: Counter)
    requires Quiet(s) && 2 <= s.fop.wnd <= s.fop.sentCap && 2 <= s.fop.txLim && 4 <= s.farm.w
    ensures ValidRun(Aloft(s, [a, b], 0), GAP, kmax)
    ensures var t := Final(Aloft(s, [a, b], 0), GAP, kmax);
            && t.accepted == s.accepted && t.air == [] && (t.farm.retransmit || t.farm.lockout)
            && (if s.fop.vs <= 253
                then t.fop.state == F.RtNoWait && t.fop.tx == [FrameOf(s.fop, a)] && |t.fop.sent| == 2
                else Stopped(t.fop))
  {
    hide F.FopStep, Out, R.Receive, R.CommandReadable, FrameOf;
    var frames := FramesFrom(s.fop.vs, [a, b]);
    var s0 := Aloft(s, [a, b], 0);
    assert [a, b][..0] == [] && s.accepted + [] == s.accepted && frames[0..] == frames;
    var s1 := s0.(air := [frames[1]]);
    assert Without(frames, 0) == [frames[1]];
    assert After(s0, UplinkLoses(0)) == s1;
    AheadByOne(s.farm, frames[1]);
    var g := R.Receive(s.farm, frames[1], false).0;
    var s2 := s1.(air := [], farm := g);
    assert s1.air[1..] == [];
    assert After(s1, UplinkDelivers(false)) == s2;
    var c := R.Report(g);
    var s3 := s2.(down := [c]);
    assert s.down + [c] == [c] && [c][1..] == [];
    assert After(s2, Reported) == s3;
    var s4 := s3.(fop := F.FopStep(s3.fop, F.ClcwArrives(c)), down := []);
    assert After(s3, DownlinkDelivers) == s4;
    GapIsReported(s.fop, a, b, c);
    hide After, Enabled, Aloft, Quiet;
    assert Final(s4, [], kmax) == s4;
    OneMove(s3, DownlinkDelivers, s4, [], kmax);
    OneMove(s2, Reported, s3, [DownlinkDelivers], kmax);
    OneMove(s1, UplinkDelivers(false), s2, GAP[2..], kmax);
    OneMove(s0, UplinkLoses(0), s1, GAP[1..], kmax);
  }

  // ---------------------------------------------------------------------------------------
  // The expedited service
  // ---------------------------------------------------------------------------------------

  function BdFrame(piece: Segment): Frame {
    Frame(Header(true, false, piece.seg), 0, piece.data)
  }

  function Expedite(piece: Segment): seq<Move> {
    [AtSender(F.Prepared(BdFrame(piece).hdr, piece.data)), AtSender(F.Requested), Radiated]
  }

  lemma ExpeditedGoesOut(f: F.FopVars, piece: Segment)
    requires f.tx == [] && 0 < f.txCap
    ensures var g := F.FopStep(f, F.Prepared(BdFrame(piece).hdr, piece.data));
            var h := F.FopStep(g, F.Requested);
            && g == f.(hdr := BdFrame(piece).hdr, data := piece.data)
            && h == g.(tx := [BdFrame(piece)]) && F.OnRequest(g).1 == F.Accepted
            && W.HandedOver(g, F.Requested) == []
  {
    hide F.OnClcw, F.OnTimer, F.OnDirective, F.OnResponse, F.LookForFdu;
    assert [] + [BdFrame(piece)] == [BdFrame(piece)];
  }

  /** Data of the expedited service is accepted and radiated in whatever state the sender is, and
      accepted and counted in whatever state the receiver is, whether or not it has room. Nothing else
      changes. */
  lemma ExpeditedArrives(s: Link, piece: Segment, rxFull: bool, kmax: Counter)
    requires s.fop.tx == [] && s.air == [] && s.fop.wait == [] && 0 < s.fop.txCap
    ensures var run := Expedite(piece) + [UplinkDelivers(rxFull)];
            && ValidRun(s, Expedite(piece), kmax) && ValidRun(s, run, kmax)
            && Final(s, Expedite(piece), kmax).air == [BdFrame(piece)]
            && R.CommandReadable(BdFrame(piece))
            && R.Receive(s.farm, BdFrame(piece), rxFull) == (R.CountB(s.farm), R.PriorityEnq)
            && Final(s, run, kmax) == s.(fop := s.fop.(hdr := BdFrame(piece).hdr, data := piece.data),
                                         farm := R.CountB(s.farm))
  {
    var run := Expedite(piece);
    var frame := BdFrame(piece);
    ExpeditedGoesOut(s.fop, piece);
    var s1 := s.(fop := s.fop.(hdr := frame.hdr, data := piece.data));
    var s2 := s1.(fop := s1.fop.(tx := [frame]));
    var s3 := s1.(air := [frame]);
    var s4 := s1.(farm := R.CountB(s.farm));
    HeadDrained(s2.fop);
    assert s2.fop.(tx := []) == s1.fop && [frame][1..] == [];
    assert s.handed + [] == s.handed && s.air + [frame] == [frame];
    hide F.FopStep;
    assert After(s, run[0]) == s1 && After(s1, run[1]) == s2 && After(s2, run[2]) == s3;
    assert After(s3, UplinkDelivers(rxFull)) == s4;
    hide After, Enabled;
    assert Final(s4, [], kmax) == s4 && Final(s3, [], kmax) == s3;
    OneMove(s2, run[2], s3, [], kmax);
    OneMove(s1, run[1], s2, [run[2]], kmax);
    OneMove(s, run[0], s1, [run[1], run[2]], kmax);
    OneMove(s3, UplinkDelivers(rxFull), s4, [], kmax);
    assert [run[0]] + [run[1], run[2]] == run;
    RunAppend(s, run, [UplinkDelivers(rxFull)], kmax);
  }

  // ---------------------------------------------------------------------------------------
  // A whole window lost
  // ---------------------------------------------------------------------------------------

  function LoseAll(n: nat): seq<Move> {
    if n == 0 then [] else [UplinkLoses(0)] + LoseAll(n - 1)
  }

  /** The timer expires; then every frame is taken, and accepted by the lower layer, one after the other. */
  function Resendings(n: nat): seq<Move> {
    if n <= 1 then [AtSender(F.TimerExpires), Radiated]
    else Resendings(n - 1) + [AtSender(F.Answered(F.AdAccept)), Radiated]
  }

  function WindowLosses(n: nat, k: nat): seq<Move> {
    if k == 0 then [] else WindowLosses(n, k - 1) + LoseAll(n) + Resendings(n)
  }

  lemma {:induction false} LoseAllRuns(s: Link, kmax: Counter)
    ensures ValidRun(s, LoseAll(|s.air|), kmax) && Final(s, LoseAll(|s.air|), kmax) == s.(air := [])
    decreases |s.air|
  {
    hide F.FopStep;
    if s.air != [] {
      var t := After(s, UplinkLoses(0));
      assert Without(s.air, 0) == s.air[1..];
      LoseAllRuns(t, kmax);
      hide After;
      OneMove(s, UplinkLoses(0), t, LoseAll(|s.air| - 1), kmax);
    }
  }

  /** All on the way for the `tries`-th time. */
  function AloftAgain(s: Link, pieces: seq<Segment>, tries: Counter, n: nat): Link
    requires n <= |pieces|
  {
    Aloft(s, pieces, n).(fop := OutAgain(s.fop, pieces, tries))
  }

  /** All were lost, and the first n of them have been sent once more. */
  ghost function Resent(s: Link, pieces: seq<Segment>, tries: Counter, n: nat): Link
    requires Quiet(s) && 0 < n <= |pieces| <= s.fop.wnd <= s.fop.sentCap
  {
    OutInWindow(s.fop, pieces, tries);
    AloftAgain(s, pieces, tries, 0).(fop := U.Replayed(OutAgain(s.fop, pieces, tries), Base(s.fop), n).(tx := []),
                                     air := FramesFrom(s.fop.vs, pieces)[..n])
  }

  lemma FirstResent(s: Link, pieces: seq<Segment>, tries: Counter, kmax: Counter)
    requires Quiet(s) && 0 < |pieces| <= s.fop.wnd <= s.fop.sentCap && tries < s.fop.txLim
    ensures var s0 := AloftAgain(s, pieces, tries, 0).(air := []);
            && ValidRun(s0, Resendings(1), kmax)
            && Final(s0, Resendings(1), kmax) == Resent(s, pieces, tries, 1)
  {
    var h := OutAgain(s.fop, pieces, tries);
    OutInWindow(s.fop, pieces, tries);
    U.ReplayStarts(h, Base(s.fop));
    hide F.FopStep, W.Window, U.WithMarks;
    var s0 := AloftAgain(s, pieces, tries, 0).(air := []);
    var s1 := s0.(fop := U.Replayed(h, Base(s.fop), 1));
    assert s0.handed + [] == s0.handed;
    assert After(s0, AtSender(F.TimerExpires)) == s1;
    HeadDrained(s1.fop);
    var s2 := Resent(s, pieces, tries, 1);
    assert s1.fop.tx[1..] == [] && [] + [s1.fop.tx[0]] == FramesFrom(s.fop.vs, pieces)[..1];
    assert After(s1, Radiated) == s2;
    hide After, Enabled;
    assert Final(s2, [], kmax) == s2;
    OneMove(s1, Radiated, s2, [], kmax);
    OneMove(s0, AtSender(F.TimerExpires), s1, [Radiated], kmax);
  }

  lemma NextResent(s: Link, pieces: seq<Segment>, tries: Counter, n: nat, kmax: Counter)
    requires Quiet(s) && 0 < n < |pieces| <= s.fop.wnd <= s.fop.sentCap && tries < s.fop.txLim
    ensures var run := [AtSender(F.Answered(F.AdAccept)), Radiated];
            && ValidRun(Resent(s, pieces, tries, n), run, kmax)
            && Final(Resent(s, pieces, tries, n), run, kmax) == Resent(s, pieces, tries, n + 1)
  {
    var h := OutAgain(s.fop, pieces, tries);
    OutInWindow(s.fop, pieces, tries);
    U.ReplayGoesOn(h, Base(s.fop), n);
    hide F.FopStep, W.Window, U.WithMarks;
    var s0 := Resent(s, pieces, tries, n);
    var s1 := s0.(fop := U.Replayed(h, Base(s.fop), n + 1));
    assert s0.handed + [] == s0.handed;
    assert After(s0, AtSender(F.Answered(F.AdAccept))) == s1;
    HeadDrained(s1.fop);
    var s2 := Resent(s, pieces, tries, n + 1);
    var frames := FramesFrom(s.fop.vs, pieces);
    assert s1.fop.tx[1..] == [] && frames[..n] + [frames[n]] == frames[..n + 1];
    assert After(s1, Radiated) == s2;
    hide After, Enabled;
    assert Final(s2, [], kmax) == s2;
    OneMove(s1, Radiated, s2, [], kmax);
    OneMove(s0, AtSender(F.Answered(F.AdAccept)), s1, [Radiated], kmax);
    assert [AtSender(F.Answered(F.AdAccept))] + [Radiated] == [AtSender(F.Answered(F.AdAccept)), Radiated];
  }

  lemma {:induction false} ResendingsRun(s: Link, pieces: seq<Segment>, tries: Counter, n: nat, kmax: Counter)
    requires Quiet(s) && 0 < n <= |pieces| <= s.fop.wnd <= s.fop.sentCap && tries < s.fop.txLim
    ensures var s0 := AloftAgain(s, pieces, tries, 0).(air := []);
            && ValidRun(s0, Resendings(n), kmax)
            && Final(s0, Resendings(n), kmax) == Resent(s, pieces, tries, n)
    decreases n
  {
    hide After, Enabled, Quiet, Resent, AloftAgain;
    if n == 1 {
      FirstResent(s, pieces, tries, kmax);
    } else {
      ResendingsRun(s, pieces, tries, n - 1, kmax);
      NextResent(s, pieces, tries, n - 1, kmax);
      RunAppend(AloftAgain(s, pieces, tries, 0).(air := []), Resendings(n - 1),
                [AtSender(F.Answered(F.AdAccept)), Radiated], kmax);
    }
  }

  lemma AllResent(s: Link, pieces: seq<Segment>, tries: Counter)
    requires Quiet(s) && 0 < |pieces| <= s.fop.wnd <= s.fop.sentCap && tries < 255
    ensures Resent(s, pieces, tries, |pieces|) == AloftAgain(s, pieces, tries + 1, 0)
  {
    OutInWindow(s.fop, pieces, tries);
    hide W.Window, Out, FramesFrom;
  }

  /** The whole window is lost once and sent again. */
  lemma OneWindowLoss(s: Link, pieces: seq<Segment>, tries: Counter, kmax: Counter)
    requires Quiet(s) && 0 < |pieces| <= s.fop.wnd <= s.fop.sentCap && tries < s.fop.txLim
    ensures var run := LoseAll(|pieces|) + Resendings(|pieces|);
            && ValidRun(AloftAgain(s, pieces, tries, 0), run, kmax)
            && Final(AloftAgain(s, pieces, tries, 0), run, kmax) == AloftAgain(s, pieces, tries + 1, 0)
  {
    var s0 := AloftAgain(s, pieces, tries, 0);
    assert |s0.air| == |pieces|;
    hide After, Enabled, Quiet, Resent, AloftAgain;
    LoseAllRuns(s0, kmax);
    ResendingsRun(s, pieces, tries, |pieces|, kmax);
    AllResent(s, pieces, tries);
    RunAppend(s0, LoseAll(|pieces|), Resendings(|pieces|), kmax);
  }

  lemma {:induction false} WindowLossesRun(s: Link, pieces: seq<Segment>, k: nat, kmax: Counter)
    requires Quiet(s) && 0 < |pieces| <= s.fop.wnd <= s.fop.sentCap && k < s.fop.txLim
    ensures ValidRun(AloftAgain(s, pieces, 1, 0), WindowLosses(|pieces|, k), kmax)
    ensures Final(AloftAgain(s, pieces, 1, 0), WindowLosses(|pieces|, k), kmax) == AloftAgain(s, pieces, k + 1, 0)
    decreases k
  {
    hide After, Enabled, Quiet, AloftAgain;
    if k > 0 {
      WindowLossesRun(s, pieces, k - 1, kmax);
      OneWindowLoss(s, pieces, k, kmax);
      var n := |pieces|;
      RunAppend(AloftAgain(s, pieces, 1, 0), WindowLosses(n, k - 1), LoseAll(n) + Resendings(n), kmax);
      assert WindowLosses(n, k - 1) + (LoseAll(n) + Resendings(n)) == WindowLosses(n, k);
    }
  }

  lemma OneDeliveryAgain(s: Link, pieces: seq<Segment>, tries: Counter, n: nat, kmax: Counter)
    requires Quiet(s) && n < |pieces| <= 255
    ensures ValidRun(AloftAgain(s, pieces, tries, n), [UplinkDelivers(false)], kmax)
    ensures Final(AloftAgain(s, pieces, tries, n), [UplinkDelivers(false)], kmax)
         == AloftAgain(s, pieces, tries, n + 1)
  {
    hide F.FopStep, Quiet, Aloft, R.Receive, R.CommandReadable;
    var s0, s1 := AloftAgain(s, pieces, tries, n), AloftAgain(s, pieces, tries, n + 1);
    AloftMoves(s, pieces, n);
    TakesNext(s0.farm, s0.air[0]);
    assert After(s0, UplinkDelivers(false)) == s1;
    assert Enabled(s0, UplinkDelivers(false), kmax);
    hide After, Enabled;
    assert Final(s1, [], kmax) == s1;
    OneMove(s0, UplinkDelivers(false), s1, [], kmax);
  }

  lemma {:induction false} DeliveriesAgain(s: Link, pieces: seq<Segment>, tries: Counter, n: nat, kmax: Counter)
    requires Quiet(s) && n <= |pieces| <= 255
    ensures ValidRun(AloftAgain(s, pieces, tries, 0), Deliveries(n), kmax)
    ensures Final(AloftAgain(s, pieces, tries, 0), Deliveries(n), kmax) == AloftAgain(s, pieces, tries, n)
  {
    hide Enabled, After, Quiet, AloftAgain;
    if n > 0 {
      DeliveriesAgain(s, pieces, tries, n - 1, kmax);
      OneDeliveryAgain(s, pieces, tries, n - 1, kmax);
      RunAppend(AloftAgain(s, pieces, tries, 0), Deliveries(n - 1), [UplinkDelivers(false)], kmax);
    }
  }

  lemma ReportedAgain(s: Link, pieces: seq<Segment>, tries: Counter, kmax: Counter)
    requires Quiet(s) && 0 < |pieces| <= s.fop.wnd
    ensures ValidRun(AloftAgain(s, pieces, tries, |pieces|), REPORT, kmax)
    ensures Final(AloftAgain(s, pieces, tries, |pieces|), REPORT, kmax) == Landed(s, pieces)
  {
    hide F.FopStep, F.OnClcw, OutAgain, Out, FramesFrom, QuietSender, Enabled;
    CountForgotten(s.fop, pieces, tries);
    var s0 := AloftAgain(s, pieces, tries, |pieces|);
    var c := Clcw(false, false, false, (s.fop.vs + |pieces|) % 256);
    var s1 := s0.(down := [c]);
    assert s.down + [c] == [c] && s1.down[1..] == [];
    AlwaysEnabled(s0, s1, kmax);
    assert After(s0, Reported) == s1;
    L.ReportStep(s0.fop, c);
    assert After(s1, DownlinkDelivers) == Landed(s, pieces);
    hide After, AloftAgain, Landed;
    assert Final(Landed(s, pieces), [], kmax) == Landed(s, pieces);
    OneMove(s1, DownlinkDelivers, Landed(s, pieces), [], kmax);
    OneMove(s0, Reported, s1, [DownlinkDelivers], kmax);
  }

  lemma AlwaysEnabled(s: Link, t: Link, kmax: Counter)
    requires t.down != []
    ensures Enabled(s, Reported, kmax) && Enabled(s, Reported, 255)
    ensures Enabled(t, DownlinkDelivers, kmax) && Enabled(t, DownlinkDelivers, 255)
  {
  }

  /** Once everything is acknowledged it does not matter how often it was sent. */
  lemma CountForgotten(f: F.FopVars, pieces: seq<Segment>, tries: Counter)
    requires QuietSender(f) && 0 < |pieces| <= f.wnd
    ensures var c := Clcw(false, false, false, (f.vs + |pieces|) % 256);
            F.OnClcw(OutAgain(f, pieces, tries), c) == F.OnClcw(Out(f, pieces), c)
  {
    hide F.Leading, F.FirstMarked, F.OnClcw, Items, FramesFrom;
    LeadingAll(f, pieces);
    NumberMoved(f.vs, |pieces|);
    EverythingAcknowledged(Out(f, pieces));
    EverythingAcknowledged(OutAgain(f, pieces, tries));
  }

  /** As many segments as the window allows, all of them lost together fewer times than the transmission
      limit says, are retransmitted each time the timer expires, accepted in order and acknowledged by one
      report; the link is quiet again. */
  lemma WindowSurvivesLosses(s: Link, pieces: seq<Segment>, k: nat, kmax: Counter)
    requires Quiet(s) && 0 < |pieces| <= s.fop.wnd <= s.fop.sentCap && k < s.fop.txLim
    ensures var n := |pieces|;
            var run := Sendings(pieces) + WindowLosses(n, k) + Deliveries(n) + REPORT;
            && ValidRun(s, run, kmax)
            && var t := Final(s, run, kmax);
            Quiet(t) && t.accepted == s.accepted + pieces
  {
    hide Enabled, After, Quiet, AloftAgain, Landed, Final, ValidRun, WindowLosses, Sendings, Deliveries, F.OnClcw;
    var n := |pieces|;
    var flight := Sendings(pieces) + WindowLosses(n, k);
    FlightRuns(s, pieces, k, kmax);
    DeliveriesAgain(s, pieces, k + 1, n, kmax);
    ReportedAgain(s, pieces, k + 1, kmax);
    LandedIsQuiet(s, pieces);
    RunAppend(s, flight, Deliveries(n), kmax);
    RunAppend(s, flight + Deliveries(n), REPORT, kmax);
  }

  lemma FlightRuns(s: Link, pieces: seq<Segment>, k: nat, kmax: Counter)
    requires Quiet(s) && 0 < |pieces| <= s.fop.wnd <= s.fop.sentCap && k < s.fop.txLim
    ensures var run := Sendings(pieces) + WindowLosses(|pieces|, k);
            ValidRun(s, run, kmax) && Final(s, run, kmax) == AloftAgain(s, pieces, k + 1, 0)
  {
    hide Enabled, After, Quiet, AloftAgain, Aloft, Final, ValidRun, WindowLosses, Sendings;
    SentOnce(s, pieces);
    SendingsRun(s, pieces, kmax);
    WindowLossesRun(s, pieces, k, kmax);
    RunAppend(s, Sendings(pieces), WindowLosses(|pieces|, k), kmax);
  }

  lemma SentOnce(s: Link, pieces: seq<Segment>)
    requires pieces != []
    ensures Aloft(s, pieces, 0) == AloftAgain(s, pieces, 1, 0)
  {
  }
}
