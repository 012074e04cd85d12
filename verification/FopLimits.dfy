/** What bounds FOP-1: the transmission count, the timer, and suspension. */
module FopLimits {
  import opened Octets
  import opened CopTypes
  import opened FopTable
  import W = FopWindow

  // ---------------------------------------------------------------------------------------
  // The range test
  // ---------------------------------------------------------------------------------------

  /** The range test errs in two ways, and only these: it lets every N(R) through while the window
      does not wrap, and once it wraps it rejects NN(R) itself. */
  lemma RangeTestExact(nr: Counter, vs: Counter, nnr: Counter)
    requires nr != vs
    ensures !(RangeTaken(nr, vs, nnr) <==> InRange(nr, vs, nnr))
            <==> (nnr <= vs && (nr < nnr || vs < nr)) || (vs < nnr && nr == nnr)
  {
  }

  // ---------------------------------------------------------------------------------------
  // A window made smaller than what is outstanding
  // ---------------------------------------------------------------------------------------

  /** A report then removes at most one frame more than the window holds, while NN(R) moves all the way: the
      sent queue still measures the counters exactly if no more than that is acknowledged. */
  lemma SmallWindowForgets(f: FopVars, base: Counter, nr: Counter, a: nat, wnd: Counter)
    requires W.Window(f, base) && W.Acknowledges(f, base, nr, a)
    ensures var d := a - W.Acked(f);
            var g := RemoveAcked(f.(wnd := wnd), nr);
            && d <= |f.sent| && g.nnr == nr && g.sent == f.sent[Min(d, wnd + 1)..]
            && (|g.sent| == Outstanding(g) <==> d <= wnd + 1)
  {
    hide Leading;
    W.LeadingInWindow(f, base, nr, a);
    W.NumbersApart(base, a, |f.log|);
    W.NumbersApart(base, W.Acked(f), a);
    hide Distance, W.Number;
  }

  // ---------------------------------------------------------------------------------------
  // Suspension
  // ---------------------------------------------------------------------------------------

  predicate SuspendedOnlyInInit(f: FopVars) {
    f.ss != 0 ==> f.state == Init
  }

  /** Looking for something to send leaves the configuration and the suspend state alone; it
      restarts the transmission count exactly when it sends a new frame with none outstanding. */
  lemma LookCounts(f: FopVars)
    ensures var g := LookForFdu(f).0;
            && g.txLim == f.txLim && g.ss == f.ss && g.timeoutType == f.timeoutType && g.txCap == f.txCap
            && g.txCnt == (if f.sent == [] && f.wait != [] && WindowTaken(f.vs, f.nnr, f.wnd) then 1 else f.txCnt)
            && (f.sent != [] ==> g.sent != [])
            && (f.sent == [] && f.wait == [] ==> g.sent == [] && g.wait == [])
  {
    hide FirstMarked, Leading, WindowTaken;
  }

  lemma LookForDirectiveCounts(f: FopVars)
    ensures var g := LookForDirective(f);
            && g.txLim == f.txLim && g.ss == f.ss && g.timeoutType == f.timeoutType && g.txCap == f.txCap
            && g.txCnt == f.txCnt && (g.state == f.state || (g.state == Init && g.sent == [] && g.wait == []))
            && (f.txCap > |f.tx| ==> g.state == f.state)
  {
    hide Leading;
  }

  lemma PerformKeepsSuspension(f: FopVars, a: Action, nr: Counter)
    requires f.ss == 0
    ensures SuspendedOnlyInInit(Perform(f, a, nr))
  {
    hide LookForFdu, LookForDirective, MarkAll, Leading;
    LookCounts(RemoveAcked(f, nr));
    LookCounts(RetryAd(RemoveAcked(f, nr)));
    LookCounts(RetryAd(f));
    LookForDirectiveCounts(RetryBc(f));
  }

  /** A suspend state is only ever held in the initial state. */
  lemma EventKeepsSuspension(f: FopVars, ev: FopEvent)
    requires SuspendedOnlyInInit(f)
    ensures SuspendedOnlyInInit(FopStep(f, ev))
  {
    hide Perform, Reaction, ClcwEvent, TimerEvent, LookForFdu, LookForDirective;
    if f.state == Init {
      W.InitIgnores(f, if ev.ClcwArrives? then ev.clcw else Clcw(false, false, false, 0));
      hide OnClcw, OnTimer;
    } else if ev.ClcwArrives? {
      PerformKeepsSuspension(f, Reaction(ClcwEvent(f, ev.clcw), f.state), ev.clcw.nr);
    } else if ev.TimerExpires? {
      PerformKeepsSuspension(f, Reaction(TimerEvent(f), f.state), 0);
    } else {
      hide OnClcw, OnTimer;
      LookCounts(f);
      LookCounts(f.(wait := [Request(f.hdr, f.data)]));
      LookForDirectiveCounts(f);
    }
  }

  /** What may happen to a suspended sender without touching the suspended session: anything but a
      directive or a rejection by the lower layer. */
  predicate LeavesSessionAlone(ev: FopEvent) {
    !ev.Directed? && (ev.Answered? ==> ev.response in {AdAccept, BcAccept, BdAccept})
  }

  function Run(f: FopVars, evs: seq<FopEvent>): FopVars
    decreases |evs|
  {
    if evs == [] then f else Run(FopStep(f, evs[0]), evs[1..])
  }

  /** Equal but for the prepared frame fields and what is on its way to the uplink. */
  predicate SameSession(f: FopVars, g: FopVars) {
    g == f.(hdr := g.hdr, data := g.data, tx := g.tx)
  }

  lemma {:induction false} SuspendedSessionRests(f: FopVars, evs: seq<FopEvent>)
    requires f.state == Init && forall i :: 0 <= i < |evs| ==> LeavesSessionAlone(evs[i])
    ensures SameSession(f, Run(f, evs))
    decreases |evs|
  {
    if evs != [] {
      var g := FopStep(f, evs[0]);
      var ev := evs[0];
      W.InitIgnores(f, if ev.ClcwArrives? then ev.clcw else Clcw(false, false, false, 0));
      assert SameSession(f, g) by { hide OnClcw, OnTimer; assert LeavesSessionAlone(ev); }
      hide FopStep;
      SuspendedSessionRests(g, evs[1..]);
    }
  }

  lemma TimerSuspends(f: FopVars)
    requires ((W.Open(f.state) && f.txCnt >= f.txLim) || f.state == InitNoBc) && f.timeoutType == 1
    ensures var s := FopStep(f, TimerExpires); s == f.(state := Init, ss := s.ss) && Resumed(s) == f.(ss := 0)
  {
    hide LookForFdu, LookForDirective, RemoveAcked, RetryAd, RetryBc;
  }

  lemma ResumeStep(f: FopVars)
    requires f.state == Init
    ensures FopStep(f, Directed(ResumeAd)) == Resumed(f)
  {
    hide OnClcw, OnTimer, OnRequest, OnResponse;
  }

  /** A session the timer suspends comes back exactly as it was: whatever reports arrive, timers
      expire and type-B frames are sent in between, resuming restores the state, V(S), NN(R), the
      window and both queues. */
  lemma ResumeUndoesSuspend(f: FopVars, evs: seq<FopEvent>)
    requires ((W.Open(f.state) && f.txCnt >= f.txLim) || f.state == InitNoBc) && f.ss == 0 && f.timeoutType == 1
    requires forall i :: 0 <= i < |evs| ==> LeavesSessionAlone(evs[i])
    ensures var g := Run(FopStep(f, TimerExpires), evs);
            && FopStep(f, TimerExpires).state == Init
            && SameSession(f, FopStep(g, Directed(ResumeAd)))
  {
    TimerSuspends(f);
    hide FopStep;
    var s := FopStep(f, TimerExpires);
    SuspendedSessionRests(s, evs);
    var g := Run(s, evs);
    hide Run;
    assert FopStep(g, Directed(ResumeAd)) == Resumed(g) by { ResumeStep(g); }
  }

  /** A rejection by the lower layer purges the queues of a suspended session but not its suspend state:
      it is resumed intact exactly if there was nothing in them. */
  lemma RejectionSpoilsSuspended(f: FopVars, base: Counter, r: Response)
    requires W.Paused(f, base) && r !in {AdAccept, BcAccept, BdAccept}
    ensures var g := FopStep(FopStep(f, Answered(r)), Directed(ResumeAd));
            && W.Open(g.state) && g.sent == [] && g.wait == []
            && (W.Window(g, base) && W.Submitted(g) == W.Submitted(f) <==> f.sent == [] && f.wait == [])
  {
    hide OnClcw, OnTimer, OnRequest;
    var g := FopStep(FopStep(f, Answered(r)), Directed(ResumeAd));
    assert g == f.(sent := [], wait := [], ss := 0, state := g.state);
    W.NumbersApart(base, W.Acked(f), |f.log|);
    if f.wait != [] {
      assert |W.Submitted(f)| == |f.log| + 1;
    }
  }

  // ---------------------------------------------------------------------------------------
  // The transmission count
  // ---------------------------------------------------------------------------------------

  /** No frame is sent more often than the limit allows, and always at least once. */
  predicate Counted(f: FopVars) {
    f.txCnt <= f.txLim || f.txCnt <= 1
  }

  /** The one way past the limit: a report that asks for retransmission, whose N(R) is let through
      although it acknowledges nothing, when the count has reached the limit and no new frame
      restarts it. */
  predicate Overcounts(f: FopVars, ev: FopEvent) {
    && ev.ClcwArrives? && W.Open(f.state) && ClcwEvent(f, ev.clcw) == E8
    && Leading(f.sent, ev.clcw.nr) == 0
    && f.txCnt == f.txLim < 255
    && !(f.sent == [] && f.wait != [] && WindowTaken(f.vs, f.nnr, f.wnd))
  }

  lemma RemoveCounts(f: FopVars, nr: Counter)
    ensures var g := RemoveAcked(f, nr);
            && g.txLim == f.txLim && g.wait == f.wait
            && g.txCnt == (if Leading(f.sent, nr) == 0 then f.txCnt else 1)
            && (Leading(f.sent, nr) == 0 ==> g == f)
  {
    hide Leading;
  }

  lemma PerformCounts(f: FopVars, a: Action, nr: Counter)
    requires Counted(f)
    requires a.Retransmit? || a.RetransmitBc? ==> f.txCnt < f.txLim
    requires a.AcknowledgeRetransmit? ==> f.txLim > 1
    ensures Perform(f, a, nr).txLim == f.txLim
    ensures Counted(Perform(f, a, nr)) <==>
            !(a.AcknowledgeRetransmit? && Leading(f.sent, nr) == 0 && f.txCnt == f.txLim < 255
              && !(f.sent == [] && f.wait != [] && WindowTaken(f.vs, f.nnr, f.wnd)))
  {
    hide LookForFdu, LookForDirective, RemoveAcked, MarkAll, Leading, WindowTaken;
    var g := RemoveAcked(f, nr);
    RemoveCounts(f, nr);
    LookCounts(g);
    LookCounts(RetryAd(g));
    LookCounts(RetryAd(f));
    LookForDirectiveCounts(RetryBc(f));
  }

  lemma ClcwRetransmits(f: FopVars, c: Clcw)
    requires f.state != Init
    ensures var a := Reaction(ClcwEvent(f, c), f.state);
            && (a.Retransmit? || a.RetransmitBc? ==> f.txCnt < f.txLim)
            && (a.AcknowledgeRetransmit? <==> W.Open(f.state) && ClcwEvent(f, c) == E8)
            && (ClcwEvent(f, c) == E8 ==> f.txLim > 1)
  {
    hide RangeTaken;
  }

  lemma TimerRetransmits(f: FopVars)
    requires f.state != Init
    ensures var a := Reaction(TimerEvent(f), f.state);
            && (a.Retransmit? || a.RetransmitBc? ==> f.txCnt < f.txLim)
            && !a.AcknowledgeRetransmit?
  {
  }

  lemma RequestCounts(f: FopVars)
    requires Counted(f)
    ensures Counted(OnRequest(f).0)
  {
    hide LookForFdu, WindowTaken;
    LookCounts(f.(wait := [Request(f.hdr, f.data)]));
  }

  lemma DirectiveCounts(f: FopVars, d: Directive)
    requires Counted(f) && !d.SetTxLimit?
    ensures Counted(OnDirective(f, d))
  {
  }

  lemma ResponseCounts(f: FopVars, r: Response)
    requires Counted(f)
    ensures Counted(OnResponse(f, r))
  {
    hide LookForFdu, LookForDirective, WindowTaken;
    LookCounts(f);
    LookForDirectiveCounts(f);
  }

  lemma OtherEventCounts(f: FopVars, ev: FopEvent)
    requires Counted(f) && !(ev.Directed? && ev.directive.SetTxLimit?) && !ev.ClcwArrives? && !ev.TimerExpires?
    ensures Counted(FopStep(f, ev))
  {
    hide OnClcw, OnTimer, OnRequest, OnDirective, OnResponse;
    match ev {
      case Requested => RequestCounts(f);
      case Directed(d) => DirectiveCounts(f, d);
      case Answered(r) => ResponseCounts(f, r);
      case _ =>
    }
  }

  /** Every event that does not move the limit keeps the count within it, except in exactly the
      case above. */
  lemma EventKeepsCount(f: FopVars, ev: FopEvent)
    requires Counted(f) && !(ev.Directed? && ev.directive.SetTxLimit?)
    ensures Counted(FopStep(f, ev)) <==> !Overcounts(f, ev)
  {
    hide Perform, Reaction, ClcwEvent, TimerEvent, WindowTaken, Leading, OnRequest, OnResponse, OnDirective;
    if !ev.ClcwArrives? && !ev.TimerExpires? {
      hide FopStep;
      OtherEventCounts(f, ev);
    } else if f.state == Init {
      W.InitIgnores(f, if ev.ClcwArrives? then ev.clcw else Clcw(false, false, false, 0));
      hide OnClcw, OnTimer;
    } else if ev.ClcwArrives? {
      ClcwRetransmits(f, ev.clcw);
      PerformCounts(f, Reaction(ClcwEvent(f, ev.clcw), f.state), ev.clcw.nr);
    } else {
      TimerRetransmits(f);
      PerformCounts(f, Reaction(TimerEvent(f), f.state), 0);
    }
  }

  /** In a session whose reports acknowledge something outstanding it does not come up. */
  lemma SessionNeverOvercounts(f: FopVars, base: Counter, ev: FopEvent)
    requires W.Window(f, base) && W.Disciplined(f, ev)
    ensures !Overcounts(f, ev)
  {
    if ev.ClcwArrives? && W.Open(f.state) && ClcwEvent(f, ev.clcw) == E8 {
      var a := W.InRangeAcknowledges(f, base, ev.clcw.nr);
      W.LeadingInWindow(f, base, ev.clcw.nr, a);
    }
  }

  /** With nothing outstanding it does, from the opening of any session: the range test lets any N(R)
      through, and the second report with a wrong one takes the count past a limit of two. */
  lemma OvercountIsReached(f: FopVars, c: Clcw)
    requires f.state == Init && f.vs == f.nnr && f.txLim == 2
    requires !c.lockout && !c.wait && c.retransmit && c.nr != f.vs
    ensures var begun := Run(f, [Directed(InitiateNoClcw)]);
            var g := Run(f, [Directed(InitiateNoClcw), ClcwArrives(c), ClcwArrives(c)]);
            && begun.state == Active && begun.sent == [] && begun.txCnt == 1
            && g.state == RtNoWait && g.txCnt == 3 && !Counted(g)
  {
    var begun := f.(wait := [], sent := [], txCnt := 1, ss := 0, state := Active);
    EmptyRetry(begun, c);
    var once := begun.(tx := [], txCnt := 2, state := RtNoWait);
    EmptyRetry(once, c);
    var evs := [Directed(InitiateNoClcw), ClcwArrives(c), ClcwArrives(c)];
    assert evs[1..] == [ClcwArrives(c), ClcwArrives(c)];
    assert evs[1..][1..] == [ClcwArrives(c)] && evs[1..][1..][1..] == [];
    assert FopStep(f, evs[0]) == begun by { hide OnClcw; }
    hide OnClcw, OnTimer, OnRequest, OnDirective, OnResponse;
    RunStep(f, evs);
    RunStep(begun, evs[1..]);
    RunStep(once, evs[1..][1..]);
    RunStep(f, [Directed(InitiateNoClcw)]);
  }

  lemma RunStep(f: FopVars, evs: seq<FopEvent>)
    requires evs != []
    ensures Run(f, evs) == Run(FopStep(f, evs[0]), evs[1..])
    ensures Run(f, []) == f
  {
    hide FopStep;
  }

  lemma EmptyRetry(f: FopVars, c: Clcw)
    requires W.Open(f.state) && f.sent == [] && f.wait == [] && f.vs == f.nnr && f.txLim == 2 && f.txCnt <= 2
    requires !c.lockout && !c.wait && c.retransmit && c.nr != f.vs
    ensures OnClcw(f, c) == f.(tx := [], txCnt := f.txCnt + 1, state := RtNoWait)
  {
    assert ClcwEvent(f, c) == E8;
    assert RemoveAcked(f, c.nr) == f;
    var g := RetryAd(f);
    assert g == f.(tx := [], txCnt := f.txCnt + 1) by { assert MarkAll(f.sent) == []; }
    hide ClcwEvent, RemoveAcked, RetryAd, RetryBc, LookForDirective;
    assert LookForFdu(g) == (g, Ignored);
  }

  // ---------------------------------------------------------------------------------------
  // The timer
  // ---------------------------------------------------------------------------------------

  function AfterExpiries(f: FopVars, k: nat): FopVars
    decreases k
  {
    if k == 0 then f else AfterExpiries(OnTimer(f), k - 1)
  }

  /** Retransmissions the limit still allows. */
  function TriesLeft(f: FopVars): nat {
    if f.txCnt < f.txLim then f.txLim - f.txCnt else 0
  }

  /** The timer is running for something the sender retries: frames outstanding, or nothing that
      waits behind an empty sent queue, or a control command. */
  predicate Retrying(f: FopVars) {
    && f.timeoutType <= 1
    && (((f.state == Active || f.state == RtNoWait) && (f.sent != [] || f.wait == [])) || f.state == InitBc)
  }

  lemma RetryReaction(f: FopVars)
    requires Retrying(f) && TriesLeft(f) > 0
    ensures Reaction(TimerEvent(f), f.state) == if f.state == InitBc then RetransmitBc else Retransmit(f.state)
  {
  }

  lemma ExpiryRetries(f: FopVars)
    requires Retrying(f) && f.txCap > 0 && TriesLeft(f) > 0
    ensures var g := OnTimer(f);
            && Retrying(g) && g.state == f.state && g.txCap == f.txCap && g.timeoutType == f.timeoutType
            && g.ss == f.ss && TriesLeft(g) == TriesLeft(f) - 1
  {
    RetryReaction(f);
    hide TimerEvent, Reaction, LookForFdu, LookForDirective, WindowTaken;
    LookCounts(RetryAd(f));
    LookForDirectiveCounts(RetryBc(f));
  }

  lemma ExpiryEnds(f: FopVars)
    requires Retrying(f) && TriesLeft(f) == 0
    ensures var g := OnTimer(f);
            && g.state == Init
            && if f.timeoutType == 1 && f.state != InitBc
               then g.ss != 0 && g.sent == f.sent && g.wait == f.wait
               else g.ss == f.ss && g.sent == [] && g.wait == []
  {
    hide LookForFdu, LookForDirective, RemoveAcked, RetryAd, RetryBc;
  }

  /** Left alone, a sender retransmits at every expiry until the limit is reached, and the expiry
      after that ends or suspends the session: exactly one more than the tries left. */
  lemma {:induction false} TimerGivesUp(f: FopVars, k: nat)
    requires Retrying(f) && f.txCap > 0 && k <= TriesLeft(f) + 1
    ensures k <= TriesLeft(f) ==>
              AfterExpiries(f, k).state == f.state && TriesLeft(AfterExpiries(f, k)) == TriesLeft(f) - k
    ensures k == TriesLeft(f) + 1 ==>
              var g := AfterExpiries(f, k);
              && g.state == Init
              && if f.timeoutType == 1 && f.state != InitBc then g.ss != 0
                 else g.ss == f.ss && g.sent == [] && g.wait == []
    decreases k
  {
    hide OnTimer;
    if k > 0 {
      if TriesLeft(f) > 0 {
        ExpiryRetries(f);
        TimerGivesUp(OnTimer(f), k - 1);
      } else {
        ExpiryEnds(f);
      }
    }
  }

  // ---------------------------------------------------------------------------------------
  // Repeated acknowledgement
  // ---------------------------------------------------------------------------------------

  /** What is left once everything outstanding is acknowledged: the sent queue is empty, or holds the one
      frame that waited. */
  lemma AcknowledgedWhole(f: FopVars, base: Counter)
    requires W.Window(f, base) && W.Open(f.state) && f.sent != []
    ensures var g := OnClcw(f, Clcw(false, false, false, f.vs));
            && g.state == f.state && g.nnr == f.vs
            && g.vs == (if f.wait == [] then f.vs else Next(f.vs))
  {
    var c := Clcw(false, false, false, f.vs);
    W.OutstandingIsSent(f, base);
    W.AcknowledgementIsExact(f, base, f.vs, |f.log|);
    var g := RemoveAcked(f, f.vs);
    assert g.sent == [] && Resend(g) == (g, true);
    hide RemoveAcked, Leading, Resend, RetryAd, RetryBc, LookForDirective, FirstMarked;
    assert ClcwEvent(f, c) == E2;
    hide ClcwEvent;
    assert OnClcw(f, c) == LookForFdu(g).0.(state := f.state);
  }

  /** A report that acknowledges nothing new. */
  lemma RepeatedReport(g: FopVars, c: Clcw)
    requires W.Open(g.state) && c == Clcw(false, false, false, g.nnr) && (g.vs == c.nr || g.vs == Next(c.nr))
    ensures OnClcw(g, c).state == Init <==> g.state != Active || (g.vs != c.nr && c.nr == 255)
  {
    assert ClcwEvent(g, c) == if g.vs == c.nr then E1 else if c.nr == 255 then E13 else E5;
    hide ClcwEvent, RemoveAcked, LookForFdu, RetryAd, RetryBc, LookForDirective;
  }

  lemma ReportStep(f: FopVars, c: Clcw)
    ensures FopStep(f, ClcwArrives(c)) == OnClcw(f, c)
  {
    hide OnClcw, OnTimer, OnRequest, OnDirective, OnResponse;
  }

  /** A report that acknowledges everything leaves the sender in the state it was in, retransmitting or
      not; the same report once more ends the session exactly if the sender was retransmitting, or if a
      frame that waited has meanwhile been sent with the number 255. */
  lemma RepeatedAcknowledgementExactly(f: FopVars, base: Counter)
    requires W.Window(f, base) && W.Open(f.state) && f.sent != []
    ensures var c := Clcw(false, false, false, f.vs);
            && FopStep(f, ClcwArrives(c)).state == f.state
            && (FopStep(FopStep(f, ClcwArrives(c)), ClcwArrives(c)).state == Init
                <==> f.state != Active || (f.wait != [] && f.vs == 255))
  {
    hide FopStep, OnClcw, W.Window;
    var c := Clcw(false, false, false, f.vs);
    var g := OnClcw(f, c);
    AcknowledgedWhole(f, base);
    ReportStep(f, c);
    ReportStep(g, c);
    RepeatedReport(g, c);
  }
}
