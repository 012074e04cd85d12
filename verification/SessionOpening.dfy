/** How a session opens: which directives leave both ends with the same numbers. */
module SessionOpening {
  import opened Octets
  import opened CopTypes
  import F = FopTable
  import W = FopWindow
  import R = Farm
  import C = ClosedLoop

  /** A sender can open a session over these counters: some numbering of the frames to come fits them. */
  ghost predicate Opened(f: F.FopVars) {
    f.state == F.Active && exists base :: W.Window(f.(log := []), base)
  }

  /** Opening without a report purges the queues but leaves the counters: the window invariant holds
      from the start if and only if V(S) and NN(R) already agree (and the window fits the sent queue).
      After an alert they need not. */
  lemma OpeningNeedsEqualCounters(f: F.FopVars)
    requires f.state == F.Init && (!f.hdr.typeB ==> !f.hdr.command)
    ensures Opened(F.FopStep(f, F.Directed(F.InitiateNoClcw))) <==> f.vs == f.nnr && f.wnd <= f.sentCap
  {
    hide F.OnClcw, F.OnTimer, F.OnRequest, F.OnResponse;
    var g := F.FopStep(f, F.Directed(F.InitiateNoClcw));
    assert g == f.(wait := [], sent := [], txCnt := 1, ss := 0, state := F.Active);
    if f.vs == f.nnr && f.wnd <= f.sentCap {
      assert W.Window(g.(log := []), f.vs);
    }
  }

  /** An alert is enough for that: after the false alarm of one report, opening without a report starts a
      session whose window is broken from the start. */
  lemma AlertLeavesCountersApart() returns (run: seq<C.Move>)
    ensures C.JustOpened(C.WrappingLink(), 1) && C.ValidRun(C.WrappingLink(), run, 1)
    ensures var f := C.Final(C.WrappingLink(), run, 1).fop;
            && f.state == F.Init && f.vs != f.nnr
            && F.FopStep(f, F.Directed(F.InitiateNoClcw)).state == F.Active
            && !Opened(F.FopStep(f, F.Directed(F.InitiateNoClcw)))
  {
    C.FalseAlarmIsReachable();
    run := [C.AtSender(F.Requested), C.Reported, C.DownlinkDelivers];
    var f := C.Final(C.WrappingLink(), run, 1).fop;
    hide C.Final, C.ValidRun, C.JustOpened, C.WrappingLink, F.OnClcw, F.OnTimer, F.OnRequest, F.OnResponse;
    OpeningNeedsEqualCounters(f);
    hide Opened;
  }

  /** The sender sends a control command and hears the report of the receiver that got it. */
  function AfterReport(f: F.FopVars, farm: R.FarmVars): F.FopVars {
    F.FopStep(f, F.ClcwArrives(R.Report(farm)))
  }

  /** The command frame goes out behind what is on the uplink already. */
  lemma CommandGoesOut(f: F.FopVars, data: seq<byte>)
    requires f.state == F.Init && 0 < f.sentCap && |f.tx| < f.txCap
    ensures var frame := Frame(F.CommandHeader(f), 0, data);
            F.WithBc(F.Initialized(f), data)
            == f.(wait := [], sent := [F.Item(frame, false, f.vs, true)], txCnt := 1, ss := 0, hdr := frame.hdr,
                  data := data, tx := f.tx + [frame], state := F.InitBc)
  {
  }

  /** A report with no flag up that repeats both counters makes the sender active; nothing else does. */
  lemma ReportReleasesCommand(f: F.FopVars, c: Clcw)
    requires f.state == F.InitBc && |f.sent| == 1 && f.sent[0].typeB && f.wait == []
    ensures var g := F.FopStep(f, F.ClcwArrives(c));
            && (g.state == F.Active <==> !c.lockout && !c.wait && !c.retransmit && c.nr == f.vs == f.nnr)
            && (g.state == F.Active ==> g == f.(state := F.Active, sent := []))
  {
    hide F.OnTimer, F.OnRequest, F.OnDirective, F.OnResponse, F.LookForFdu, F.LookForDirective, F.RemoveAcked,
         F.RetryAd, F.RetryBc, F.RangeTaken;
  }

  ghost predicate BothOpen(f: F.FopVars, farm: R.FarmVars) {
    C.JustOpened(C.Link(f.(log := [], tx := []), [], farm, [], [], []), f.wnd)
  }

  /** Opening with Set V(R) brings both ends to the given number, whatever their counters were, unless
      the receiver is locked out; then the session does not open. */
  lemma SetVrOpensBothEnds(f: F.FopVars, farm: R.FarmVars, v: Counter, rxFull: bool)
    requires f.state == F.Init && 0 < f.sentCap && |f.tx| < f.txCap && f.wnd <= f.sentCap
    requires R.Configured(farm) && R.Consistent(farm)
    ensures var g := F.FopStep(f, F.Directed(F.InitiateWithSetVr(v)));
            && |g.tx| == |f.tx| + 1 && R.CommandReadable(g.tx[|f.tx|])
            && var farm' := R.Receive(farm, g.tx[|f.tx|], rxFull).0;
            var h := AfterReport(g, farm');
            && (h.state == F.Active <==> farm.state != R.Lockout)
            && (h.state == F.Active ==> h.vs == h.nnr == farm'.vr == v && BothOpen(h, farm'))
  {
    hide F.OnClcw, F.OnTimer, F.OnRequest, F.OnResponse, F.WithBc;
    var f1 := f.(vs := v, nnr := v);
    var data := [SETVR_BYTE1, SETVR_BYTE2, v as byte];
    CommandGoesOut(f1, data);
    OctetValue(v);
    var g := F.FopStep(f, F.Directed(F.InitiateWithSetVr(v)));
    assert g == F.WithBc(F.Initialized(f1), data);
    var frame := Frame(F.CommandHeader(f1), 0, data);
    assert g.tx[|f.tx|] == frame;
    SetVrTakesEffect(farm, frame, v, rxFull);
    ReportReleasesCommand(g, R.Report(R.Receive(farm, frame, rxFull).0));
    hide F.FopStep, R.Receive, F.CommandHeader;
  }

  lemma SetVrTakesEffect(farm: R.FarmVars, frame: Frame, v: Counter, rxFull: bool)
    requires R.Configured(farm) && R.Consistent(farm)
    requires frame.hdr.typeB && frame.hdr.command && frame.data == [SETVR_BYTE1, SETVR_BYTE2, v as byte]
    ensures R.CommandReadable(frame)
    ensures var g := R.Receive(farm, frame, rxFull).0;
            && R.Configured(g) && g.lockout == (farm.state == R.Lockout)
            && (farm.state != R.Lockout ==> g.vr == v && !g.wait && !g.retransmit)
  {
    OctetValue(v);
    hide R.TypeA, R.RegionTaken;
  }

  /** Opening with Unlock opens the receiver from every state, and the session if and only if its V(R) is
      where the sender's counters are. */
  lemma UnlockOpensIffCountersAgree(f: F.FopVars, farm: R.FarmVars, rxFull: bool)
    requires f.state == F.Init && 0 < f.sentCap && |f.tx| < f.txCap && f.wnd <= f.sentCap
    requires R.Configured(farm) && R.Consistent(farm)
    ensures var g := F.FopStep(f, F.Directed(F.InitiateWithUnlock));
            && |g.tx| == |f.tx| + 1 && R.CommandReadable(g.tx[|f.tx|])
            && var farm' := R.Receive(farm, g.tx[|f.tx|], rxFull).0;
            var h := AfterReport(g, farm');
            && farm'.state == R.Open && farm'.vr == farm.vr
            && (h.state == F.Active <==> f.vs == f.nnr == farm.vr)
            && (h.state == F.Active ==> BothOpen(h, farm'))
  {
    hide F.OnClcw, F.OnTimer, F.OnRequest, F.OnResponse, F.WithBc;
    var data := [UNLOCK_CMD];
    CommandGoesOut(f, data);
    var g := F.FopStep(f, F.Directed(F.InitiateWithUnlock));
    var frame := Frame(F.CommandHeader(f), 0, data);
    assert g.tx[|f.tx|] == frame;
    UnlockTakesEffect(farm, frame, rxFull);
    ReportReleasesCommand(g, R.Report(R.Receive(farm, frame, rxFull).0));
    hide F.FopStep, R.Receive, F.CommandHeader;
  }

  lemma UnlockTakesEffect(farm: R.FarmVars, frame: Frame, rxFull: bool)
    requires R.Configured(farm) && R.Consistent(farm)
    requires frame.hdr.typeB && frame.hdr.command && frame.data == [UNLOCK_CMD]
    ensures R.CommandReadable(frame)
    ensures var g := R.Receive(farm, frame, rxFull).0;
            R.Configured(g) && g.state == R.Open && g.vr == farm.vr && !g.lockout && !g.wait && !g.retransmit
  {
    hide R.TypeA, R.RegionTaken;
  }

  /** Opening with a report: the session opens exactly when the receiver is where the sender's counters
      are, is not locked out or waiting, and asks for nothing. */
  lemma ClcwOpensIffCountersAgree(f: F.FopVars, farm: R.FarmVars)
    requires f.state == F.Init && f.wnd <= f.sentCap && (!f.hdr.typeB ==> !f.hdr.command)
    requires R.Configured(farm) && R.Consistent(farm)
    ensures var g := F.FopStep(f, F.Directed(F.InitiateWithClcw));
            var h := AfterReport(g, farm);
            && g.state == F.InitNoBc
            && (h.state == F.Active <==> f.vs == f.nnr == farm.vr && farm.state == R.Open && !farm.retransmit)
            && (h.state == F.Active ==> BothOpen(h, farm))
  {
    hide F.OnTimer, F.OnRequest, F.OnResponse, F.LookForFdu, F.LookForDirective, F.RemoveAcked, F.RetryAd, F.RetryBc,
         F.RangeTaken;
  }

  // ---------------------------------------------------------------------------------------
  // Old reports still under way
  // ---------------------------------------------------------------------------------------

  /** The sender waits for the answer to its command, with its counters in agreement. */
  predicate Asking(f: F.FopVars) {
    f.state == F.InitBc && |f.sent| == 1 && f.sent[0].typeB && f.wait == [] && f.vs == f.nnr
  }

  /** A report, of whatever age, that is not ignored then. */
  predicate Decides(f: F.FopVars, c: Clcw) {
    !c.lockout && !c.retransmit && c.nr == f.vs
  }

  lemma ReportDecides(f: F.FopVars, c: Clcw)
    requires Asking(f)
    ensures F.FopStep(f, F.ClcwArrives(c))
         == if !Decides(f, c) then f else f.(state := if c.wait then F.Init else F.Active, sent := [])
  {
    hide F.OnTimer, F.OnRequest, F.OnDirective, F.OnResponse, F.LookForFdu, F.LookForDirective, F.RemoveAcked,
         F.RetryAd, F.RetryBc;
    assert f.(wait := []) == f && f.sent[1..] == [];
  }

  function Hears(f: F.FopVars, reports: seq<Clcw>): F.FopVars
    decreases |reports|
  {
    if reports == [] then f else Hears(F.FopStep(f, F.ClcwArrives(reports[0])), reports[1..])
  }

  /** Old reports leave the sender asking exactly if none of them decides. Otherwise the first that does
      opens the session, or ends it, whether or not the command has arrived. */
  lemma {:induction false} OldReportsExactly(f: F.FopVars, before: seq<Clcw>) returns (k: nat)
    requires Asking(f)
    ensures k <= |before| && (forall i :: 0 <= i < k ==> !Decides(f, before[i]))
    ensures k < |before| ==> Decides(f, before[k])
    ensures k == |before| ==> Hears(f, before) == f
    ensures k < |before| ==>
              Hears(f, before[..k + 1]) == f.(state := if before[k].wait then F.Init else F.Active, sent := [])
    decreases |before|
  {
    hide F.FopStep;
    k := 0;
    if before != [] {
      ReportDecides(f, before[0]);
      if Decides(f, before[0]) {
        var g := F.FopStep(f, F.ClcwArrives(before[0]));
        assert before[..1][1..] == [] && Hears(g, []) == g;
      } else {
        var n := OldReportsExactly(f, before[1..]);
        k := n + 1;
        if k < |before| {
          assert before[..k + 1][1..] == before[1..][..n + 1];
        }
      }
    }
  }

  /** Opening with Set V(R) while old reports are under way. If none of them repeats the new number with
      its lockout and retransmit flags down, both ends open as without them. Otherwise the first that
      does opens the session, or ends it if it asks to wait, before the command is heard of: the ends then
      agree only if the receiver was at that number already. */
  lemma SetVrOverOldReports(f: F.FopVars, farm: R.FarmVars, v: Counter, before: seq<Clcw>, rxFull: bool)
      returns (k: nat)
    requires f.state == F.Init && 0 < f.sentCap && |f.tx| < f.txCap && f.wnd <= f.sentCap
    requires R.Configured(farm) && R.Consistent(farm)
    ensures k <= |before|
    ensures k < |before| <==>
              exists i :: 0 <= i < |before| && !before[i].lockout && !before[i].retransmit && before[i].nr == v
    ensures var g := F.FopStep(f, F.Directed(F.InitiateWithSetVr(v)));
            && |g.tx| == |f.tx| + 1 && R.CommandReadable(g.tx[|f.tx|])
            && if k == |before| then
                 var farm' := R.Receive(farm, g.tx[|f.tx|], rxFull).0;
                 var h := AfterReport(Hears(g, before), farm');
                 && (h.state == F.Active <==> farm.state != R.Lockout)
                 && (h.state == F.Active ==> h.vs == h.nnr == farm'.vr == v && BothOpen(h, farm'))
               else
                 var h := Hears(g, before[..k + 1]);
                 && h.state == (if before[k].wait then F.Init else F.Active)
                 && (h.state == F.Active ==> (BothOpen(h, farm) <==> farm.vr == v))
  {
    SetVrOpensBothEnds(f, farm, v, rxFull);
    SetVrAsks(f, v);
    hide F.FopStep, R.Receive, R.CommandReadable, Hears;
    var g := F.FopStep(f, F.Directed(F.InitiateWithSetVr(v)));
    k := OldReportsExactly(g, before);
    if k < |before| {
      assert Decides(g, before[k]);
    } else {
      assert forall i :: 0 <= i < |before| ==> !Decides(g, before[i]);
    }
  }

  lemma SetVrAsks(f: F.FopVars, v: Counter)
    requires f.state == F.Init && 0 < f.sentCap && |f.tx| < f.txCap
    ensures var g := F.FopStep(f, F.Directed(F.InitiateWithSetVr(v)));
            Asking(g) && g.vs == g.nnr == v && g.ss == 0 && g.wnd == f.wnd && g.sentCap == f.sentCap && g.hdr.typeB
  {
    hide F.OnClcw, F.OnTimer, F.OnRequest, F.OnResponse, F.WithBc;
    var f1 := f.(vs := v, nnr := v);
    CommandGoesOut(f1, [SETVR_BYTE1, SETVR_BYTE2, v as byte]);
  }
}
