/** What the answers of the sender tell its user, said without the events and the actions of the table. */
module FopAnswers {
  import opened Octets
  import opened CopTypes
  import opened FopTable
  import W = FopWindow
  import N = FopNotices
  import opened FopMeaning

  // ---------------------------------------------------------------------------------------
  // Requests, directives and responses
  // ---------------------------------------------------------------------------------------

  /** A type-A request is rejected, and then changes nothing, exactly if another one waits or no session is
      open; delayed, it is the one that waits now; accepted, its frame is the last on the uplink, its number is
      used up, and nothing waits. */
  lemma RequestAnswers(f: FopVars, signal: N.Notification)
    requires !f.hdr.typeB
    ensures var g := FopStep(f, Requested);
            var t := N.EventTold(f, Requested, signal);
            && t.back == t.signal
            && (t.back == N.RejectTx <==> f.wait != [] || !W.Open(f.state)) && (t.back == N.RejectTx ==> g == f)
            && (t.back == N.DelayResp ==> g.wait == [Request(f.hdr, f.data)] && g.log == f.log && g.vs == f.vs)
            && (t.back == N.AcceptTx ==>
                  && g.wait == [] && g.log == f.log + [Segment(f.hdr.seg, f.data)] && g.vs == Next(f.vs)
                  && g.tx != [] && g.tx[|g.tx| - 1] == Frame(f.hdr, f.vs, f.data))
            && t.back in {N.RejectTx, N.DelayResp, N.AcceptTx, N.UndefError}
  {
    hide OnClcw, OnTimer, OnResponse, OnDirective, Resend;
    if f.wait == [] && W.Open(f.state) && f.state != RtWait {
      var h := f.(wait := [Request(f.hdr, f.data)]);
      ResendOnly(h);
      LookAnswers(h);
      hide LookForFdu;
    }
  }

  lemma ResendOnly(f: FopVars)
    ensures var g := Resend(f).0;
            g == f.(sent := g.sent, tx := g.tx) && |g.sent| == |f.sent|
  {
    hide FirstMarked;
  }

  lemma LookAnswers(f: FopVars)
    requires |f.wait| == 1
    ensures var (g, notice) := LookForFdu(f);
            && (notice == Accepted ==>
                  && g.wait == [] && g.log == f.log + [Segment(f.hdr.seg, f.wait[0].data)] && g.vs == Next(f.vs)
                  && g.tx != [] && g.tx[|g.tx| - 1] == Pack(f, f.wait[0].data))
            && (notice == Delayed ==> g.wait == f.wait && g.log == f.log && g.vs == f.vs)
            && notice != Rejected && notice != Ignored
  {
    hide Resend, WindowTaken;
    ResendOnly(f);
  }

  /** Type-B data is accepted or rejected; a command in its place is undefined, and changes nothing. */
  lemma ExpeditedAnswers(f: FopVars, signal: N.Notification)
    requires f.hdr.typeB
    ensures var g := FopStep(f, Requested);
            var t := N.EventTold(f, Requested, signal);
            && t == N.Both(if f.hdr.command then N.UndefError else if |f.tx| < f.txCap then N.AcceptTx else N.RejectTx)
            && (t.back != N.AcceptTx ==> g == f)
  {
    hide OnClcw, OnTimer, OnResponse, OnDirective, LookForFdu;
  }

  /** A control command goes out unsegmented in a type-B command frame. */
  function CommandHeaderOf(f: FopVars): Header {
    Header(true, true, SegHeader(Unseg, f.hdr.seg.mapId))
  }

  /** What a directive asks of the sender is the case. */
  predicate CarriedOut(f: FopVars, d: Directive, g: FopVars) {
    match d
    case InitiateNoClcw => W.Open(g.state) && g.sent == [] && g.wait == [] && g.txCnt == 1 && g.ss == 0
    case InitiateWithClcw => g.state == InitNoBc && g.sent == [] && g.wait == [] && g.txCnt == 1 && g.ss == 0
    case InitiateWithUnlock =>
      && g.state == InitBc && |g.sent| == 1 && g.wait == [] && g.txCnt == 1 && g.ss == 0
      && g.tx == f.tx + [g.sent[0].frame] && g.sent[0].frame.hdr == CommandHeaderOf(f) && g.sent[0].frame.data == [0]
    case InitiateWithSetVr(v) =>
      && g.state == InitBc && |g.sent| == 1 && g.wait == [] && g.txCnt == 1 && g.ss == 0 && g.vs == g.nnr == v
      && g.tx == f.tx + [g.sent[0].frame] && g.sent[0].frame.hdr == CommandHeaderOf(f)
      && g.sent[0].frame.data == [0x82, 0, v as byte]
    case TerminateAd => g.state == Init && (f.state != Init ==> g.sent == [] && g.wait == [])
    case ResumeAd => g.ss == 0 && g.state != Init && g.sent == f.sent && g.wait == f.wait && g.vs == f.vs
    case SetNewVs(v) => g.vs == g.nnr == v
    case SetWindow(k) => g.wnd == k
    case SetTxLimit(l) => g.txLim == l
    case SetTimeoutType(t) => g.timeoutType == t
  }

  /** A control command goes out if there is a place for it in both queues. */
  lemma CommandAnswers(f: FopVars, data: seq<byte>)
    requires f.sent == []
    ensures var (h, ok) := TransmitBc(Prepare(f, CommandHeader(f), data));
            var g := WithBc(f, data);
            && (ok <==> 0 < f.sentCap && |f.tx| < f.txCap)
            && (ok ==> g.state == InitBc && |g.sent| == 1 && g.sent[0].frame.data == data
                       && g.tx == f.tx + [g.sent[0].frame])
            && (ok ==> g.sent[0].frame.hdr == CommandHeaderOf(f))
            && (!ok ==> g.state == f.state && g.tx == f.tx)
            && g.wait == f.wait && g.txCnt == 1 && g.ss == f.ss && g.vs == f.vs && g.nnr == f.nnr
  {
  }

  /** The directive starts a session while one is open, sets V(S) outside the initial state or over a
      suspended session, or resumes what was not suspended. */
  predicate Untimely(f: FopVars, d: Directive) {
    match d
    case ResumeAd => f.ss == 0
    case SetNewVs(_) => f.state != Init || f.ss != 0
    case SetWindow(_) => false
    case SetTxLimit(_) => false
    case SetTimeoutType(_) => false
    case TerminateAd => false
    case _ => f.state != Init
  }

  predicate SendsCommand(d: Directive) {
    d.InitiateWithUnlock? || d.InitiateWithSetVr?
  }

  /** The answer to a directive tells what becomes of it. */
  predicate TellsOfDirective(f: FopVars, d: Directive, g: FopVars, back: N.Notification) {
    if Untimely(f, d) then back == N.RejectDir && g == f
    else if SendsCommand(d) && (f.sentCap == 0 || |f.tx| >= f.txCap)
    then back == N.UndefError && g.state == Init && g.tx == f.tx
    else if d.ResumeAd? && f.state != Init then back == N.NotApplicable && g == f
    else CarriedOut(f, d, g) && back == if SendsCommand(d) || d.InitiateWithClcw? then N.AcceptDir else N.PositiveDir
  }

  /** A directive that is untimely is rejected and changes nothing. One that has no place for its command is
      an undefined error, and no session opens. Otherwise it is carried out, and confirmed or accepted; but
      resuming what is not in the initial state does not apply. */
  lemma DirectiveAnswers(f: FopVars, d: Directive, signal: N.Notification)
    requires f.ss <= 4
    ensures TellsOfDirective(f, d, FopStep(f, Directed(d)), N.EventTold(f, Directed(d), signal).back)
  {
    if d.InitiateWithUnlock? {
      UnlockAnswers(f, signal);
    } else if d.InitiateWithSetVr? {
      SetVrAnswers(f, d.newVr, signal);
    }
    hide OnClcw, OnTimer, OnResponse, OnRequest, WithBc, TransmitBc, CommandHeader, CommandHeaderOf;
  }

  lemma UnlockAnswers(f: FopVars, signal: N.Notification)
    ensures var d := InitiateWithUnlock;
            TellsOfDirective(f, d, FopStep(f, Directed(d)), N.EventTold(f, Directed(d), signal).back)
  {
    hide OnClcw, OnTimer, OnResponse, OnRequest, WithBc, TransmitBc, CommandHeader, CommandHeaderOf;
    CommandAnswers(Initialized(f), [UNLOCK_CMD]);
    SameHeader(f, Initialized(f));
  }

  lemma SetVrAnswers(f: FopVars, v: Counter, signal: N.Notification)
    ensures var d := InitiateWithSetVr(v);
            TellsOfDirective(f, d, FopStep(f, Directed(d)), N.EventTold(f, Directed(d), signal).back)
  {
    hide OnClcw, OnTimer, OnResponse, OnRequest, WithBc, TransmitBc, CommandHeader, CommandHeaderOf;
    var h := Initialized(f).(vs := v, nnr := v);
    CommandAnswers(h, [SETVR_BYTE1, SETVR_BYTE2, v as byte]);
    SameHeader(f, h);
  }

  lemma SameHeader(f: FopVars, g: FopVars)
    requires g.hdr == f.hdr
    ensures CommandHeaderOf(g) == CommandHeaderOf(f)
  {
  }

  /** What the acceptance of a control command is answered with: that there is none to look at, that the
      lower layer has no place for a marked one, or that it is accepted. */
  lemma CommandLookAnswers(f: FopVars, signal: N.Notification)
    requires f.state == InitBc
    ensures var g := FopStep(f, Answered(BcAccept));
            var t := N.EventTold(f, Answered(BcAccept), signal);
            var again := f.sent != [] && f.sent[0].rt && f.sent[0].typeB;
            && t == N.Both(if f.sent == [] then N.UndefError else if again && |f.tx| >= f.txCap then N.AlertLlif
                           else N.AcceptDir)
            && (again && |f.tx| < f.txCap ==>
                  g == f.(tx := f.tx + [f.sent[0].frame], sent := f.sent[0 := f.sent[0].(rt := false)]))
            && (!again ==> g == f)
  {
    hide OnClcw, OnTimer, OnRequest, OnDirective, FirstMarked;
    if f.sent != [] { assert Leading(f.sent, f.sent[0].seqNum) == 0; }
    hide Leading;
  }

  /** A rejection is answered with the alert for the lower layer, the acceptance of type-B data is passed on
      and changes nothing, and an acceptance that finds the sender in another state is ignored. */
  lemma ResponseAnswers(f: FopVars, r: Response, signal: N.Notification)
    requires r == AdAccept ==> f.state != Active && f.state != RtNoWait
    requires r == BcAccept ==> f.state != InitBc
    ensures var t := N.EventTold(f, Answered(r), signal);
            && t == (if r in {AdReject, BcReject, BdReject} then N.Both(N.AlertLlif)
                     else if r == BdAccept then N.Both(N.AcceptTx) else N.Told(N.NoNotice, signal))
            && (r in {AdAccept, BcAccept, BdAccept} ==> FopStep(f, Answered(r)) == f)
  {
    hide OnClcw, OnTimer, OnRequest, OnDirective;
  }

  // ---------------------------------------------------------------------------------------
  // Reports and the timer
  // ---------------------------------------------------------------------------------------

  /** What the user is told when a report ends a session. */
  lemma WhichAlert(f: FopVars, c: Clcw, signal: N.Notification)
    requires W.Open(f.state) && Hopeless(f, c)
    ensures N.ClcwTold(f, c, signal) == N.Both(
              if c.lockout then N.AlertLockout
              else if Disbelieved(f, c) then N.AlertNnr
              else if c.wait && !c.retransmit then N.AlertClcw
              else if c.retransmit && c.nr != f.vs then N.AlertLimit
              else N.AlertSynch)
  {
    hide RemoveAcked, LookForFdu, RetryAd, RetryBc, LookForDirective;
  }

  /** The user is told of the expiry if it ends the session, and that it is suspended; an expiry that is
      ignored is not applicable in the initial state, and an undefined error if the type is neither of
      the two. */
  lemma TimerAnswers(f: FopVars, signal: N.Notification)
    requires TimerIgnored(f) || (NothingToTry(f) && (f.state != InitBc || f.txCnt >= f.txLim))
    ensures N.TimerTold(f, signal)
         == if f.timeoutType > 1 then N.Both(N.UndefError)
            else if TimerIgnored(f) then N.Told(if f.state == Init then N.NotApplicable else N.NoNotice, signal)
            else if f.timeoutType == 1 && f.state != InitBc then N.Told(N.Suspended, signal)
            else N.Both(N.AlertT1)
  {
    hide RemoveAcked, LookForFdu, RetryAd, RetryBc, LookForDirective;
  }

  /** The retransmission of a control command is answered like its acceptance. */
  lemma CommandTimerAnswers(f: FopVars, signal: N.Notification)
    requires f.state == InitBc && f.sent != [] && f.sent[0].typeB && 0 < f.txCap
    requires !TimerIgnored(f) && !NothingToTry(f)
    ensures N.TimerTold(f, signal) == N.Both(N.AcceptDir)
  {
    hide RemoveAcked, LookForFdu, RetryAd, FirstMarked, LookForDirective;
  }

  /** The limit leaves no case for the report. */
  predicate NoCase(f: FopVars, c: Clcw) {
    c.retransmit && c.nr != f.vs && f.txLim == 0 && !c.lockout && !Disbelieved(f, c)
  }

  /** The report asks a sender with tries left to wait, and acknowledges nothing. */
  predicate AsksToWait(f: FopVars, c: Clcw) {
    && c.retransmit && c.wait && c.nr == f.nnr && c.nr != f.vs && f.txCnt < f.txLim && f.txLim > 1
    && !c.lockout && !Disbelieved(f, c)
  }

  /** A report that changes nothing, or makes nothing go out, in an open session or in the initial state:
      ignored, if there is a case for it. */
  lemma IgnoredAnswers(f: FopVars, c: Clcw, signal: N.Notification)
    requires f.state == Init || W.Open(f.state)
    requires W.Open(f.state) ==> !Hopeless(f, c) && !StartsAgain(f, c) && (c.retransmit || c.nr == f.nnr)
    ensures N.ClcwTold(f, c, signal) == if NoCase(f, c) then N.Both(N.UndefError) else N.Told(N.NoNotice, signal)
  {
    hide RemoveAcked, LookForFdu, RetryAd, RetryBc, LookForDirective;
  }

  /** The answer to a session that waits for a report: confirmed if that opens it; else not applicable in
      most cases. */
  lemma AwaitedReportAnswers(f: FopVars, c: Clcw, signal: N.Notification)
    requires f.state == InitNoBc
    requires !c.lockout && !(c.nr == f.vs && (c.wait || c.retransmit)) && !Disbelieved(f, c)
    ensures N.ClcwTold(f, c, signal)
         == if NoCase(f, c) then N.Both(N.UndefError)
            else if AllWell(f, c) then N.Both(N.PositiveDir)
            else N.Told(if AsksToWait(f, c) then N.NoNotice else N.NotApplicable, signal)
  {
    hide RemoveAcked, LookForFdu, RetryAd, RetryBc, LookForDirective;
  }

  /** The same while the effect of a control command is awaited. The code ACCEPT_DIR for a receiver that asks
      for a frame again when the limit is one is that of a bare zero. */
  lemma AwaitedEffectAnswers(f: FopVars, c: Clcw, signal: N.Notification)
    requires f.state == InitBc && !(!c.lockout && !c.retransmit && c.wait && c.nr == f.vs)
    ensures N.ClcwTold(f, c, signal)
         == if NoCase(f, c) then N.Both(N.UndefError)
            else if AllWell(f, c) then N.Both(if f.sent == [] then N.UndefError else N.PositiveDir)
            else N.Told(
              if c.lockout || Disbelieved(f, c) || AsksToWait(f, c) || (c.nr == f.vs && c.retransmit) then N.NoNotice
              else if c.retransmit && f.txLim == 1 && c.nr != f.nnr then N.AcceptDir
              else N.NotApplicable, signal)
  {
    hide RemoveAcked, LookForFdu, RetryAd, RetryBc, LookForDirective;
  }

  /** The event makes an open session look for something to send: a report that acknowledges or starts a
      retransmission, an expiry that does, or the acceptance of a type-A frame. */
  predicate MakesLook(f: FopVars, ev: FopEvent) {
    match ev
    case ClcwArrives(c) =>
      W.Open(f.state) && !Hopeless(f, c) && (StartsAgain(f, c) || (!c.retransmit && c.nr != f.nnr))
    case TimerExpires => (f.state == Active || f.state == RtNoWait) && !TimerIgnored(f) && !NothingToTry(f)
    case Answered(r) => r == AdAccept && (f.state == Active || f.state == RtNoWait)
    case _ => false
  }

  /** Told what becomes of the request that waits: accepted and no longer waiting, or delayed and waiting
      still; or of an undefined error, for want of room; or, if none waits, the signal from before. */
  predicate TellsWaiting(f: FopVars, g: FopVars, t: N.Told, signal: N.Notification) {
    && t.back == t.signal
    && (f.wait == [] ==> t.back == signal || t.back == N.UndefError)
    && (f.wait != [] ==>
          && t.back in {N.AcceptTx, N.DelayResp, N.UndefError}
          && (t.back == N.AcceptTx ==> g.wait == [] && |g.log| == |f.log| + 1 && g.tx != [])
          && (t.back == N.DelayResp ==> g.wait == f.wait && g.log == f.log))
  }

  /** That is what such an event is answered with. */
  lemma LookingAnswers(f: FopVars, ev: FopEvent, signal: N.Notification)
    requires MakesLook(f, ev) && |f.wait| <= 1
    ensures TellsWaiting(f, FopStep(f, ev), N.EventTold(f, ev, signal), signal)
  {
    hide OnClcw, OnRequest, OnDirective, LookForFdu, RetryAd, LookForDirective, Reaction, TimerEvent, N.NothingDone,
         N.AlertOf, N.ClcwTold, RemoveAcked, RetryBc;
    match ev {
      case ClcwArrives(c) => ReportLooks(f, c, signal);
      case TimerExpires =>
        RetryKeepsWaiting(f);
        Looks(RetryAd(f));
        TimerSelects(f);
      case Answered(_) => Looks(f);
    }
  }

  lemma ActionLooks(f: FopVars, e: Event, nr: Counter, signal: N.Notification)
    requires e != NoEvent && |f.wait| <= 1
    requires var a := Reaction(e, f.state); a.Acknowledge? || a.AcknowledgeRetransmit? || a.Retransmit?
    ensures TellsWaiting(f, Perform(f, Reaction(e, f.state), nr), N.Answer(f, e, nr, signal), signal)
  {
    hide RemoveAcked, LookForFdu, RetryAd, RetryBc, LookForDirective, Reaction, N.NothingDone, N.AlertOf,
         N.DirectiveLooked, N.PassedOn;
    var h := RemoveAcked(f, nr);
    W.AcknowledgementKeepsRest(f, nr);
    match Reaction(e, f.state) {
      case Acknowledge(_) => Looks(h);
      case AcknowledgeRetransmit(_) =>
        RetryKeepsWaiting(h);
        Looks(RetryAd(h));
      case Retransmit(_) =>
        RetryKeepsWaiting(f);
        Looks(RetryAd(f));
    }
  }

  lemma ReportLooks(f: FopVars, c: Clcw, signal: N.Notification)
    requires MakesLook(f, ClcwArrives(c)) && |f.wait| <= 1
    ensures TellsWaiting(f, OnClcw(f, c), N.ClcwTold(f, c, signal), signal)
  {
    hide Perform, Reaction, ClcwEvent, N.Answer, Selects, MakesLook, TellsWaiting;
    SomeEvent(f, c);
    SelectsOpen(f, c);
    ReportSelects(f, c);
    SelectsLooking(f, c, Reaction(ClcwEvent(f, c), f.state));
    ActionLooks(f, ClcwEvent(f, c), c.nr, signal);
  }

  lemma SelectsOpen(f: FopVars, c: Clcw)
    requires MakesLook(f, ClcwArrives(c))
    ensures W.Open(f.state)
  {
  }

  lemma SelectsLooking(f: FopVars, c: Clcw, a: Action)
    requires MakesLook(f, ClcwArrives(c)) && Selects(f, c, a)
    ensures if !StartsAgain(f, c) then a.Acknowledge?
            else if c.nr != f.nnr then a.AcknowledgeRetransmit? else a.Retransmit?
  {
  }

  lemma SomeEvent(f: FopVars, c: Clcw)
    requires MakesLook(f, ClcwArrives(c))
    ensures ClcwEvent(f, c) != NoEvent
  {
  }

  lemma TimerSelects(f: FopVars)
    requires MakesLook(f, TimerExpires)
    ensures TimerEvent(f) != NoEvent && Reaction(TimerEvent(f), f.state) == Retransmit(f.state)
  {
  }

  lemma RetryKeepsWaiting(f: FopVars)
    ensures RetryAd(f).wait == f.wait && RetryAd(f).log == f.log
  {
  }

  lemma Looks(f: FopVars)
    requires |f.wait| <= 1
    ensures var (g, notice) := LookForFdu(f);
            && (f.wait == [] ==> notice == Ignored || notice == Undefined)
            && (f.wait != [] ==>
                  && notice in {Accepted, Delayed, Undefined}
                  && (notice == Accepted ==> g.wait == [] && |g.log| == |f.log| + 1 && g.tx != [])
                  && (notice == Delayed ==> g.wait == f.wait && g.log == f.log))
  {
    hide Resend, WindowTaken;
    ResendOnly(f);
  }
}
