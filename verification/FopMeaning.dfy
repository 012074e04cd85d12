/** What reports, the timer, settings and rejections do to a sender, said of the report and the counters
    alone, without the events and the actions of the table. */
module FopMeaning {
  import opened Octets
  import opened CopTypes
  import opened FopTable
  import W = FopWindow
  import U = FopUplink
  import L = FopLimits

  // ---------------------------------------------------------------------------------------
  // A report in an open session
  // ---------------------------------------------------------------------------------------

  /** The report asks for frames that are outstanding, and the sender may try more than once. */
  predicate AsksAgain(f: FopVars, c: Clcw) {
    c.retransmit && c.nr != f.vs && f.txLim > 1
  }

  /** The report acknowledges some of what is outstanding and asks for nothing. */
  predicate AcknowledgesSome(f: FopVars, c: Clcw) {
    c.nr != f.nnr && c.nr != f.vs && !c.retransmit
  }

  /** The range test does not believe it: while the numbers of the window wrap, it is out of range or
      repeats NN(R). As long as they do not wrap, the test lets everything pass. */
  predicate Disbelieved(f: FopVars, c: Clcw) {
    f.vs < f.nnr && (c.nr == f.nnr || !InRange(c.nr, f.vs, f.nnr))
  }

  /** The session cannot go on: the receiver is locked out; it contradicts itself, by a flag that has no
      reason with nothing outstanding or by waiting without asking again; a sender that retransmits
      hears nothing new; the one try is used up; or the report is not believed. */
  predicate Hopeless(f: FopVars, c: Clcw) {
    || c.lockout
    || (c.nr == f.vs && (c.wait || c.retransmit))
    || (!c.retransmit && c.wait)
    || (!c.retransmit && c.nr == f.nnr && f.state != Active)
    || (c.retransmit && f.txLim == 1)
    || Disbelieved(f, c)
  }

  /** A retransmission starts: asked for and not told to wait, unless nothing was acknowledged and the
      tries are used up or one is going on. */
  predicate StartsAgain(f: FopVars, c: Clcw) {
    AsksAgain(f, c) && !c.wait && (c.nr != f.nnr || (f.txCnt < f.txLim && f.state != RtNoWait))
  }

  /** The action the table selects. */
  predicate Selects(f: FopVars, c: Clcw, a: Action) {
    if Hopeless(f, c) then a == Alarm || a == AcknowledgeAlarm
    else if StartsAgain(f, c) then
      a == if c.nr != f.nnr then AcknowledgeRetransmit(RtNoWait) else Retransmit(RtNoWait)
    else if AsksAgain(f, c) then
      if !c.wait then a == Enter(RtNoWait) || (a == Ignore && f.state == RtNoWait)
      else a == if c.nr != f.nnr then AcknowledgeOnly(RtWait) else Enter(RtWait)
    else if c.retransmit || c.nr == f.nnr then a == Ignore
    else a == Acknowledge(if c.nr != f.vs then Active else f.state)
  }

  lemma ReportSelects(f: FopVars, c: Clcw)
    requires W.Open(f.state)
    ensures Selects(f, c, Reaction(ClcwEvent(f, c), f.state))
  {
  }

  /** A report ends an open session exactly if it is hopeless. Otherwise the sender is told to wait,
      retransmits, or is active, as the flags say. */
  lemma ReportStates(f: FopVars, c: Clcw)
    requires W.Open(f.state)
    ensures var g := OnClcw(f, c);
            && (W.GivenUp(f, g) <==> Hopeless(f, c)) && (g.state == Init <==> Hopeless(f, c))
            && (!Hopeless(f, c) ==>
                  && (g.state == RtWait <==>
                        (AsksAgain(f, c) && c.wait)
                        || (!AsksAgain(f, c) && f.state == RtWait && !AcknowledgesSome(f, c)))
                  && (g.state == RtNoWait <==>
                        (AsksAgain(f, c) && !c.wait)
                        || (!AsksAgain(f, c) && f.state == RtNoWait && !AcknowledgesSome(f, c)))
                  && (g.state == Active <==>
                        AcknowledgesSome(f, c) || (!AsksAgain(f, c) && f.state == Active)))
  {
    hide RemoveAcked, LookForFdu, RetryAd, RetryBc, LookForDirective, Reaction, ClcwEvent, InRange;
    ReportSelects(f, c);
    W.AcknowledgementKeepsRest(f, c.nr);
  }

  /** The uplink begins with the oldest frame outstanding, and may hold it alone. */
  ghost predicate OldestFirst(g: FopVars, base: Counter, alone: bool) {
    && 0 <= W.Acked(g) < |g.log| && g.tx != [] && g.tx[0] == W.FrameAt(base, g.log, W.Acked(g))
    && (alone ==> |g.tx| == 1)
  }

  lemma RetryFromOldest(f: FopVars, base: Counter, s: FopState)
    requires W.Window(f, base) && f.sent != []
    ensures var g := LookForFdu(RetryAd(f)).0.(state := s);
            (0 < f.txCap ==> OldestFirst(g, base, f.wait == [])) && g.txCnt == Next(f.txCnt)
  {
    hide LookForFdu, RetryAd, W.Window, W.FrameAt;
    var g := LookForFdu(RetryAd(f)).0;
    if 0 < f.txCap { U.RetrySendsFirst(f, base); }
    L.LookCounts(RetryAd(f));
    MarksAsMany(f);
    var idx := W.RetryLook(f, base);
    OldestIsLogged(f, g, base);
  }

  lemma MarksAsMany(f: FopVars)
    ensures |RetryAd(f).sent| == |f.sent| && RetryAd(f).txCnt == Next(f.txCnt)
  {
  }

  lemma OldestIsLogged(f: FopVars, g: FopVars, base: Counter)
    requires W.Window(f, base) && f.sent != []
    ensures 0 <= W.Acked(f) < |f.log|
    ensures f.log <= g.log ==> W.FrameAt(base, g.log, W.Acked(f)) == W.FrameAt(base, f.log, W.Acked(f))
  {
  }

  /** Something is outstanding after a report that repeats less than V(S). */
  lemma SomeOutstanding(f: FopVars, base: Counter, nr: Counter)
    requires W.Window(f, base) && InRange(nr, f.vs, f.nnr) && nr != f.vs
    ensures f.sent != [] && Distance(nr, f.nnr) < |f.sent|
  {
    W.OutstandingIsSent(f, base);
  }

  /** Part of the next lemma: a report that starts a retransmission. */
  lemma AgainQueues(f: FopVars, base: Counter, c: Clcw, a: nat)
    requires W.Window(f, base) && W.Open(f.state) && InRange(c.nr, f.vs, f.nnr) && !Hopeless(f, c)
    requires W.Acknowledges(f, base, c.nr, a) && StartsAgain(f, c)
    ensures var g := OnClcw(f, c);
            && (0 < f.txCap ==> OldestFirst(g, base, f.wait == []))
            && g.txCnt == (if c.nr != f.nnr then 2 else f.txCnt + 1)
  {
    hide RemoveAcked, LookForFdu, RetryAd, RetryBc, LookForDirective, Reaction, ClcwEvent, InRange, W.Window, Leading,
         OldestFirst, W.Acknowledges, Hopeless;
    ReportSelects(f, c);
    W.AcknowledgementIsExact(f, base, c.nr, a);
    SomeOutstanding(f, base, c.nr);
    RetryFromOldest(if c.nr != f.nnr then RemoveAcked(f, c.nr) else f, base, RtNoWait);
  }

  /** What is outstanding afterwards, and what is sent: the report removes exactly what it acknowledges; a
      retransmission drops what waits for the uplink and begins with the oldest frame outstanding, for
      which it is the second or one more try; otherwise the uplink queue keeps what it has. */
  lemma ReportQueues(f: FopVars, base: Counter, c: Clcw)
    requires W.Window(f, base) && W.Open(f.state) && InRange(c.nr, f.vs, f.nnr) && !Hopeless(f, c)
    ensures var g := OnClcw(f, c);
            && W.Window(g, base)
            && W.Acked(g) == W.Acked(f) + (if c.retransmit && c.nr != f.vs && f.txLim == 0 then 0
                                           else Distance(c.nr, f.nnr))
            && (if StartsAgain(f, c)
                then (0 < f.txCap ==> OldestFirst(g, base, f.wait == []))
                     && g.txCnt == (if c.nr != f.nnr then 2 else f.txCnt + 1)
                else f.tx <= g.tx && g.txCnt == (if W.Acked(g) > W.Acked(f) then 1 else f.txCnt))
  {
    hide RemoveAcked, LookForFdu, RetryAd, RetryBc, LookForDirective, Reaction, ClcwEvent, InRange, W.Window, Leading,
         OldestFirst, W.Acknowledges;
    ReportSelects(f, c);
    var act := Reaction(ClcwEvent(f, c), f.state);
    var a := W.InRangeAcknowledges(f, base, c.nr);
    W.AcknowledgementIsExact(f, base, c.nr, a);
    var kept, idx := W.PerformInSession(f, base, act, c.nr, a);
    if StartsAgain(f, c) {
      AgainQueues(f, base, c, a);
    } else if act.Acknowledge? {
      idx := W.AcknowledgeLook(f, base, c.nr, a);
      L.LookCounts(RemoveAcked(f, c.nr));
    }
  }

  predicate NothingMarked(sent: seq<Item>) {
    forall i :: 0 <= i < |sent| ==> !sent[i].rt
  }

  /** A report that acknowledges something lets a request go that waits for the window, if nothing is left
      to be sent again. */
  lemma WaitingGoesOut(f: FopVars, base: Counter, c: Clcw)
    requires W.Window(f, base) && W.Open(f.state) && InRange(c.nr, f.vs, f.nnr)
    requires !c.lockout && !c.wait && !c.retransmit && c.nr != f.nnr
    requires f.wait != [] && NothingMarked(f.sent)
    ensures var g := OnClcw(f, c);
            && g.wait == [] && g.log == W.Submitted(f) && |g.log| == |f.log| + 1
            && (|f.tx| < f.txCap ==> g.tx == f.tx + [W.FrameAt(base, g.log, |f.log|)])
  {
    hide RemoveAcked, LookForFdu, RetryAd, RetryBc, LookForDirective, Reaction, ClcwEvent, InRange, W.Window, Leading,
         NothingMarked;
    ReportSelects(f, c);
    var a := W.InRangeAcknowledges(f, base, c.nr);
    W.AcknowledgementIsExact(f, base, c.nr, a);
    RestIsUnmarked(f.sent, Distance(c.nr, f.nnr));
    SomethingNew(c.nr, f.nnr);
    SentFits(f, base);
    LooksForWaiting(RemoveAcked(f, c.nr), base);
  }

  lemma RestIsUnmarked(sent: seq<Item>, k: nat)
    requires NothingMarked(sent) && k <= |sent|
    ensures NothingMarked(sent[k..])
  {
  }

  lemma SentFits(f: FopVars, base: Counter)
    requires W.Window(f, base)
    ensures |f.sent| <= f.wnd
  {
  }

  lemma SomethingNew(nr: Counter, nnr: Counter)
    ensures Distance(nr, nnr) > 0 <==> nr != nnr
  {
  }

  lemma LooksForWaiting(f: FopVars, base: Counter)
    requires W.Window(f, base) && f.wait != [] && NothingMarked(f.sent) && |f.sent| < f.wnd
    ensures var g := LookForFdu(f).0;
            && g.wait == [] && g.log == W.Submitted(f) && |g.log| == |f.log| + 1
            && (|f.tx| < f.txCap ==> g.tx == f.tx + [W.FrameAt(base, g.log, |f.log|)])
  {
    hide FirstMarked;
    W.OutstandingIsSent(f, base);
  }

  // ---------------------------------------------------------------------------------------
  // The other states
  // ---------------------------------------------------------------------------------------

  /** Nothing is outstanding, and the receiver complains of nothing. */
  predicate AllWell(f: FopVars, c: Clcw) {
    c.nr == f.vs == f.nnr && !c.lockout && !c.wait && !c.retransmit
  }

  /** A session that waits for a report is opened by one that agrees with it and ended by one that is
      locked out, contradicts itself or is not believed. Nothing else has an effect on it. */
  lemma AwaitedReport(f: FopVars, c: Clcw)
    requires f.state == InitNoBc
    ensures var g := OnClcw(f, c);
            && (AllWell(f, c) ==> g == f.(state := Active))
            && (W.GivenUp(f, g) <==>
                  c.lockout || (c.nr == f.vs && (c.wait || c.retransmit)) || Disbelieved(f, c))
            && (AllWell(f, c) || W.GivenUp(f, g) || g == f)
  {
    hide RemoveAcked, LookForFdu, RetryAd, RetryBc, LookForDirective;
  }

  /** One that waits for the effect of its control command is opened by a report that agrees with it, which
      crosses the command off, and ended by a receiver that waits and asks for nothing. */
  lemma AwaitedEffect(f: FopVars, c: Clcw)
    requires f.state == InitBc
    ensures var g := OnClcw(f, c);
            && (AllWell(f, c) && f.sent != [] ==>
                  g == f.(state := Active, sent := if f.sent[0].typeB then f.sent[1..] else f.sent))
            && (W.GivenUp(f, g) <==> !c.lockout && !c.retransmit && c.wait && c.nr == f.vs)
            && ((AllWell(f, c) && f.sent != []) || W.GivenUp(f, g) || g == f)
  {
    hide RemoveAcked, LookForFdu, RetryAd, RetryBc, LookForDirective;
  }

  // ---------------------------------------------------------------------------------------
  // The timer, and the lower layer
  // ---------------------------------------------------------------------------------------

  /** The timer is ignored in the initial state, by a sender told to wait that has tries left, and if its
      type is neither of the two. */
  predicate TimerIgnored(f: FopVars) {
    f.state == Init || f.timeoutType > 1 || (f.state == RtWait && f.txCnt < f.txLim)
  }

  /** No frame may be sent again: the tries are used up, or the sender waits for a first report. */
  predicate NothingToTry(f: FopVars) {
    f.txCnt >= f.txLim || f.state == InitNoBc
  }

  /** An expiry that finds nothing to try ends the session, or suspends it if that is what the timer is for
      and no control command is under way. */
  lemma TimerStates(f: FopVars)
    requires f.state != InitBc || f.txCnt >= f.txLim
    ensures var g := OnTimer(f);
            && (g == f || !TimerIgnored(f)) && (TimerIgnored(f) ==> g == f)
            && (!TimerIgnored(f) && NothingToTry(f) ==>
                  if f.timeoutType == 1 && f.state != InitBc then W.Suspends(f, g) else W.GivenUp(f, g))
            && (!TimerIgnored(f) && !NothingToTry(f) ==> g.state == f.state)
  {
    hide RemoveAcked, LookForFdu, RetryAd, RetryBc, LookForDirective, MarkAll;
  }

  /** Any other expiry starts a retransmission with the oldest frame outstanding. */
  lemma TimerSendsOldest(f: FopVars, base: Counter)
    requires W.Window(f, base) && (f.state == Active || f.state == RtNoWait) && f.sent != []
    requires !TimerIgnored(f) && !NothingToTry(f)
    ensures var g := OnTimer(f);
            && g.state == f.state && W.Window(g, base) && W.Acked(g) == W.Acked(f) && g.txCnt == f.txCnt + 1
            && (0 < f.txCap ==> OldestFirst(g, base, f.wait == []))
  {
    TimerActs(f);
    hide OnTimer, LookForFdu, RetryAd, W.Window;
    RetryFromOldest(f, base, f.state);
    var idx := W.RetryLook(f, base);
    W.AdvancesInAnyState(f, LookForFdu(RetryAd(f)).0, base, [], idx, f.state);
  }

  lemma TimerActs(f: FopVars)
    requires (f.state == Active || f.state == RtNoWait) && !TimerIgnored(f) && !NothingToTry(f)
    ensures OnTimer(f) == LookForFdu(RetryAd(f)).0.(state := f.state) && Next(f.txCnt) == f.txCnt + 1
  {
    hide LookForFdu, RetryAd, RemoveAcked, RetryBc, LookForDirective;
  }

  /** A control command that had no effect yet is sent again, alone, and counted. */
  lemma TimerSendsCommand(f: FopVars)
    requires f.state == InitBc && f.sent != [] && f.sent[0].typeB && !f.sent[0].rt && 0 < f.txCap
    requires !TimerIgnored(f) && !NothingToTry(f)
    ensures OnTimer(f) == f.(tx := [f.sent[0].frame], txCnt := f.txCnt + 1)
  {
    hide RemoveAcked, LookForFdu, RetryAd, FirstMarked;
    var g := RetryBc(f);
    assert Leading(g.sent, g.sent[0].seqNum) == 0;
    assert g.sent[0 := g.sent[0].(rt := false)] == f.sent;
    assert [] + [f.sent[0].frame] == [f.sent[0].frame];
    hide Leading;
  }

  /** A frame or command the lower layer rejects ends the session, whatever the state. */
  lemma RejectionEnds(f: FopVars, r: Response)
    requires r in {AdReject, BcReject, BdReject}
    ensures W.GivenUp(f, FopStep(f, Answered(r)))
  {
    hide OnClcw, OnTimer, OnRequest, OnDirective;
  }

  /** Terminating the service ends every session, also one that is being opened. */
  lemma TerminationEnds(f: FopVars)
    requires f.state != Init
    ensures W.GivenUp(f, FopStep(f, Directed(TerminateAd)))
  {
    hide OnClcw, OnTimer, OnRequest, OnResponse;
  }

  // ---------------------------------------------------------------------------------------
  // What the settings decide
  // ---------------------------------------------------------------------------------------

  /** The limit decides from the next expiry on how often a frame is sent, and the timer type what comes
      after that. */
  lemma LimitDecides(f: FopVars, limit: Counter, kind: Counter)
    requires f.state == Active
    ensures var g := FopStep(FopStep(f, Directed(SetTxLimit(limit))), Directed(SetTimeoutType(kind)));
            var h := FopStep(g, TimerExpires);
            && (h.state == Init <==> kind <= 1 && f.txCnt >= limit)
            && (kind == 1 && f.txCnt >= limit ==> h == g.(state := Init, ss := 1))
            && (kind == 0 && f.txCnt >= limit ==> W.GivenUp(g, h))
  {
    var g := f.(txLim := limit, timeoutType := kind);
    hide OnClcw, OnRequest, OnResponse;
    assert g == FopStep(FopStep(f, Directed(SetTxLimit(limit))), Directed(SetTimeoutType(kind)));
    TimerStates(g);
    hide OnDirective, OnTimer;
  }

  /** The window decides whether a request is transmitted or has to wait. */
  lemma WindowDecides(f: FopVars, base: Counter, wnd: Counter)
    requires W.Window(f, base) && f.state == Active && f.wait == [] && NothingMarked(f.sent) && !f.hdr.typeB
    requires |f.sent| <= wnd <= f.sentCap && |f.tx| < f.txCap
    ensures var g := FopStep(FopStep(f, Directed(SetWindow(wnd))), Requested);
            if |f.sent| < wnd
            then g.wait == [] && |g.log| == |f.log| + 1 && g.tx == f.tx + [W.FrameAt(base, g.log, |f.log|)]
            else g.wait == [Request(f.hdr, f.data)] && g.log == f.log && g.tx == f.tx
  {
    var h := f.(wnd := wnd, wait := [Request(f.hdr, f.data)]);
    StaysWindow(f, base, h);
    RequestLooks(f, wnd);
    hide FopStep, LookForFdu, W.Window, NothingMarked;
    if |f.sent| < wnd {
      LooksForWaiting(h, base);
    } else {
      LooksInVain(h, base);
    }
  }

  lemma StaysWindow(f: FopVars, base: Counter, h: FopVars)
    requires W.Window(f, base) && !f.hdr.typeB && |h.sent| <= h.wnd <= h.sentCap
    requires h == f.(wnd := h.wnd, wait := [Request(f.hdr, f.data)])
    ensures W.Window(h, base)
  {
    forall i | 0 <= i < |h.sent| ensures W.ItemAt(h.sent[i], base, h.log, W.Acked(h) + i) {
      assert W.ItemAt(f.sent[i], base, f.log, W.Acked(f) + i);
    }
  }

  lemma RequestLooks(f: FopVars, wnd: Counter)
    requires f.state == Active && f.wait == [] && !f.hdr.typeB
    ensures FopStep(FopStep(f, Directed(SetWindow(wnd))), Requested)
         == LookForFdu(f.(wnd := wnd, wait := [Request(f.hdr, f.data)])).0
  {
    hide LookForFdu, OnClcw, OnTimer, OnResponse;
  }

  lemma LooksInVain(f: FopVars, base: Counter)
    requires W.Window(f, base) && f.wait != [] && NothingMarked(f.sent) && |f.sent| == f.wnd
    ensures LookForFdu(f).0 == f
  {
    W.OutstandingIsSent(f, base);
    hide FirstMarked, W.Window, TransmitAd;
  }

  /** V(S) can be set where no session is open or suspended, and decides the number of the next frame. */
  lemma NewVsDecides(f: FopVars, v: Counter, hdr: Header, data: seq<byte>)
    requires f.state == Init && f.ss == 0 && !hdr.typeB && 0 < f.wnd && 0 < f.sentCap && |f.tx| < f.txCap
    ensures var g := FopStep(FopStep(f, Directed(SetNewVs(v))), Directed(InitiateNoClcw));
            FopStep(FopStep(g, Prepared(hdr, data)), Requested).tx == f.tx + [Frame(hdr, v, data)]
  {
    hide OnClcw, OnTimer, OnResponse;
    var g := f.(vs := v, nnr := v, wait := [], sent := [], txCnt := 1, state := Active);
    assert g == FopStep(FopStep(f, Directed(SetNewVs(v))), Directed(InitiateNoClcw));
    hide OnDirective;
    var h := g.(hdr := hdr, data := data, wait := [Request(hdr, data)]);
    assert Resend(h) == (h, true);
    assert Distance(h.vs, h.nnr) == 0;
  }
}
