/** What FOP-1 tells its user: every procedure returns a notification, and most leave it in the `signal`
    field as well. */
module FopNotices {
  import opened Octets
  import opened CopTypes
  import opened FopTable
  import W = FopWindow
  import L = FopLimits

  /** `NoNotice` and `NotApplicable` are the codes IGNORE and NA. */
  datatype Notification =
    | AcceptDir | RejectDir | PositiveDir | AcceptTx | RejectTx | DelayResp | Suspended
    | AlertSynch | AlertClcw | AlertLimit | AlertNnr | AlertLockout | AlertT1 | AlertLlif
    | UndefError | NoNotice | NotApplicable

  /** What a procedure returns, and what `signal` holds afterwards. */
  datatype Told = Told(back: Notification, signal: Notification)

  function Both(n: Notification): Told {
    Told(n, n)
  }

  /** The answer to a request, or to looking for something to send. If there is nothing to tell, the
      signal left from before is returned. */
  function Looked(n: Notice, signal: Notification): Told {
    match n
    case Accepted => Both(AcceptTx)
    case Rejected => Both(RejectTx)
    case Delayed => Both(DelayResp)
    case Undefined => Both(UndefError)
    case Ignored => Both(signal)
  }

  /** What looking for a directive to send again returns, and leaves in `signal`. */
  function DirectiveLooked(f: FopVars, signal: Notification): Told {
    if f.sent == [] then Both(UndefError)
    else if !(f.sent[0].rt && f.sent[0].typeB) then Told(AcceptDir, signal)
    else if |f.tx| >= f.txCap then Both(AlertLlif)
    else if f.state == InitBc then Both(AcceptDir)
    else Told(NoNotice, signal)
  }

  /** The same, passed on by the procedure that looked. */
  function PassedOn(t: Told): Told {
    if t.back == NoNotice then Both(t.signal) else Both(t.back)
  }

  function AlertOf(e: Event): Notification {
    match e
    case E3 => AlertClcw
    case E7 => AlertClcw
    case E13 => AlertNnr
    case E14 => AlertLockout
    case E101 => AlertLimit
    case E102 => AlertLimit
    case E16 => AlertT1
    case E17 => AlertT1
    case E18 => AlertT1
    case _ => AlertSynch
  }

  /** An event that does nothing: ignored, or not applicable in this state. E101 in the initialising
      state with a command returns the bare number 0, which is the code ACCEPT_DIR. */
  function NothingDone(e: Event, s: FopState): Notification {
    match s
    case Init => if e in {E16, E104, E17, E18} then NotApplicable else NoNotice
    case InitNoBc => if e == E11 then NoNotice else NotApplicable
    case InitBc =>
      if e == E101 then AcceptDir else if e in {E4, E11, E13, E14} then NoNotice else NotApplicable
    case _ => NoNotice
  }

  /** The answer to a report or to the timer, by the entry of the action table. */
  function Answer(f: FopVars, e: Event, nr: Counter, signal: Notification): Told {
    if e == NoEvent then Both(UndefError)
    else
      match Reaction(e, f.state)
      case Ignore => Told(NothingDone(e, f.state), signal)
      case Enter(_) => if e == E1 then Both(PositiveDir) else Told(NoNotice, signal)
      case ReleaseBc => Both(if f.sent == [] then UndefError else PositiveDir)
      case Alarm => Both(AlertOf(e))
      case Suspend(_) => Told(Suspended, signal)
      case Acknowledge(_) => Looked(LookForFdu(RemoveAcked(f, nr)).1, signal)
      case AcknowledgeOnly(_) => Told(NoNotice, signal)
      case AcknowledgeAlarm => Both(AlertLimit)
      case AcknowledgeRetransmit(_) => Looked(LookForFdu(RetryAd(RemoveAcked(f, nr))).1, signal)
      case Retransmit(_) => Looked(LookForFdu(RetryAd(f)).1, signal)
      case RetransmitBc => PassedOn(DirectiveLooked(RetryBc(f), signal))
  }

  function ClcwTold(f: FopVars, c: Clcw, signal: Notification): Told {
    Answer(f, ClcwEvent(f, c), c.nr, signal)
  }

  function TimerTold(f: FopVars, signal: Notification): Told {
    Answer(f, TimerEvent(f), 0, signal)
  }

  /** The answer to a control command that is to open a session. */
  function WithBcTold(f: FopVars, data: seq<byte>): Told {
    Both(if TransmitBc(Prepare(f, CommandHeader(f), data)).1 then AcceptDir else UndefError)
  }

  function DirectiveTold(f: FopVars, d: Directive, signal: Notification): Told {
    match d
    case InitiateNoClcw => Both(if f.state == Init then PositiveDir else RejectDir)
    case InitiateWithClcw => Both(if f.state == Init then AcceptDir else RejectDir)
    case InitiateWithUnlock =>
      if f.state == Init then WithBcTold(Initialized(f), [UNLOCK_CMD]) else Told(RejectDir, signal)
    case InitiateWithSetVr(v) =>
      if f.state == Init
      then WithBcTold(Initialized(f).(vs := v, nnr := v), [SETVR_BYTE1, SETVR_BYTE2, v as byte])
      else Told(RejectDir, signal)
    case ResumeAd =>
      if f.ss == 0 then Told(RejectDir, signal)
      else if f.ss > 4 then Both(UndefError)
      else if f.state == Init then Both(PositiveDir) else Told(NotApplicable, signal)
    case SetNewVs(_) => if f.state == Init && f.ss == 0 then Both(PositiveDir) else Told(RejectDir, signal)
    case _ => Both(PositiveDir)
  }

  function ResponseTold(f: FopVars, r: Response, signal: Notification): Told {
    match r
    case AdAccept =>
      if f.state == Active || f.state == RtNoWait then Looked(LookForFdu(f).1, signal) else Told(NoNotice, signal)
    case BcAccept =>
      if f.state == InitBc then PassedOn(DirectiveLooked(f, signal)) else Told(NoNotice, signal)
    case BdAccept => Both(AcceptTx)
    case _ => Both(AlertLlif)
  }

  /** What any event is answered with. Preparing a frame and radiating one are not answered. */
  function EventTold(f: FopVars, ev: FopEvent, signal: Notification): Told {
    match ev
    case ClcwArrives(c) => ClcwTold(f, c, signal)
    case TimerExpires => TimerTold(f, signal)
    case Requested => Looked(OnRequest(f).1, signal)
    case Directed(d) => DirectiveTold(f, d, signal)
    case Answered(r) => ResponseTold(f, r, signal)
    case Prepared(_, _) => Told(NoNotice, signal)
    case Drained(_) => Told(NoNotice, signal)
  }

  // ---------------------------------------------------------------------------------------
  // What the answers mean
  // ---------------------------------------------------------------------------------------

  predicate IsAlert(n: Notification) {
    n in {AlertSynch, AlertClcw, AlertLimit, AlertNnr, AlertLockout, AlertT1, AlertLlif}
  }

  /** While a session is open or being opened, the signal is not an alert; and it is never SUSPEND. */
  predicate Calm(f: FopVars, signal: Notification) {
    (f.state != Init ==> !IsAlert(signal)) && signal != Suspended && L.SuspendedOnlyInInit(f)
  }

  /** What the table can make of an event outside the initial state. */
  lemma TableStates(e: Event, s: FopState)
    requires s != Init && e != NoEvent
    ensures match Reaction(e, s)
            case Enter(t) => t != Init
            case Acknowledge(t) => t != Init
            case AcknowledgeOnly(t) => t != Init
            case AcknowledgeRetransmit(t) => t != Init
            case Retransmit(t) => t != Init
            case Suspend(ss) => ss != 0
            case _ => true
    ensures IsAlert(AlertOf(e)) && !IsAlert(NothingDone(e, s)) && NothingDone(e, s) != Suspended
  {
  }

  /** Where an action leads that was selected there. */
  lemma ActionStates(f: FopVars, a: Action, nr: Counter)
    requires f.state != Init && f.ss == 0
    requires a.Enter? || a.Acknowledge? || a.AcknowledgeOnly? || a.AcknowledgeRetransmit? || a.Retransmit?
             ==> a.next != Init
    requires a.Suspend? ==> a.ss != 0
    ensures var g := Perform(f, a, nr);
            && (g.state == Init && g.ss == 0
                <==> a.Alarm? || a.AcknowledgeAlarm?
                     || (a.RetransmitBc? && IsAlert(DirectiveLooked(RetryBc(f), NoNotice).back)))
            && (g.ss != 0 <==> a.Suspend?) && (g.ss != 0 ==> g.state == Init)
  {
    hide LookForFdu, RemoveAcked, RetryAd, MarkAll, Leading;
    KeepsSuspendState(f, nr);
    L.LookCounts(RemoveAcked(f, nr));
    L.LookCounts(RetryAd(RemoveAcked(f, nr)));
    L.LookCounts(RetryAd(f));
  }

  lemma KeepsSuspendState(f: FopVars, nr: Counter)
    ensures RemoveAcked(f, nr).ss == f.ss && RetryAd(f).ss == f.ss && RetryAd(RemoveAcked(f, nr)).ss == f.ss
  {
    hide Leading, MarkAll;
  }

  lemma LookTold(n: Notice, signal: Notification)
    requires !IsAlert(signal) && signal != Suspended
    ensures var t := Looked(n, signal);
            !IsAlert(t.back) && t.back != Suspended && !IsAlert(t.signal) && t.signal != Suspended
  {
  }

  lemma DirectiveLookTold(f: FopVars, signal: Notification)
    requires !IsAlert(signal) && signal != Suspended
    ensures var t := PassedOn(DirectiveLooked(f, signal));
            && (IsAlert(t.back) <==> IsAlert(DirectiveLooked(f, NoNotice).back)) && t.back == t.signal != Suspended
  {
  }

  /** The answer by the kind of action. */
  lemma AnswerByAction(f: FopVars, e: Event, nr: Counter, signal: Notification)
    requires !IsAlert(signal) && signal != Suspended && f.state != Init && e != NoEvent
    ensures var a := Reaction(e, f.state);
            var t := Answer(f, e, nr, signal);
            && (IsAlert(t.back)
                <==> a.Alarm? || a.AcknowledgeAlarm?
                     || (a.RetransmitBc? && IsAlert(DirectiveLooked(RetryBc(f), NoNotice).back)))
            && (t.back == Suspended <==> a.Suspend?)
            && t.signal != Suspended && (IsAlert(t.signal) ==> IsAlert(t.back))
  {
    hide LookForFdu, RemoveAcked, RetryAd, RetryBc, Reaction, NothingDone, AlertOf, Looked, DirectiveLooked, PassedOn;
    TableStates(e, f.state);
    match Reaction(e, f.state) {
      case Acknowledge(_) => LookTold(LookForFdu(RemoveAcked(f, nr)).1, signal);
      case AcknowledgeRetransmit(_) => LookTold(LookForFdu(RetryAd(RemoveAcked(f, nr))).1, signal);
      case Retransmit(_) => LookTold(LookForFdu(RetryAd(f)).1, signal);
      case RetransmitBc => DirectiveLookTold(RetryBc(f), signal);
      case _ =>
    }
  }

  /** Outside the initial state a report or the timer is answered with an alert exactly if the session is
      given up, and with SUSPEND exactly if it is suspended. */
  lemma AnswerMeans(f: FopVars, e: Event, nr: Counter, signal: Notification)
    requires Calm(f, signal) && f.state != Init
    ensures var g := if e == NoEvent then f else Perform(f, Reaction(e, f.state), nr);
            var t := Answer(f, e, nr, signal);
            && (IsAlert(t.back) <==> g.state == Init && g.ss == 0)
            && (t.back == Suspended <==> g.ss != 0)
            && Calm(g, t.signal)
  {
    if e != NoEvent {
      hide Answer, Perform, Reaction, DirectiveLooked, RetryBc;
      TableStates(e, f.state);
      ActionStates(f, Reaction(e, f.state), nr);
      AnswerByAction(f, e, nr, signal);
    } else {
      hide Perform, Reaction;
    }
  }

  lemma InitIsQuiet(f: FopVars, ev: FopEvent, signal: Notification)
    requires f.state == Init && (ev.ClcwArrives? || ev.TimerExpires?)
    ensures var t := EventTold(f, ev, signal);
            !IsAlert(t.back) && t.back != Suspended && (t.signal == signal || t.signal == UndefError)
  {
    hide LookForFdu, RemoveAcked, RetryAd, RetryBc, RangeTaken;
  }

  lemma DirectiveIsCalm(f: FopVars, d: Directive, signal: Notification)
    requires Calm(f, signal)
    ensures var t := DirectiveTold(f, d, signal);
            !IsAlert(t.back) && t.back != Suspended && Calm(OnDirective(f, d), t.signal)
  {
    hide CommandHeader, TransmitBc, WithBc;
    if f.state == Init {
      WithBcIsCalm(Initialized(f), [UNLOCK_CMD]);
      if d.InitiateWithSetVr? {
        WithBcIsCalm(Initialized(f).(vs := d.newVr, nnr := d.newVr), [SETVR_BYTE1, SETVR_BYTE2, d.newVr as byte]);
      }
    }
  }

  lemma WithBcIsCalm(f: FopVars, data: seq<byte>)
    requires f.state == Init && f.ss == 0
    ensures WithBc(f, data).ss == 0
    ensures var n := WithBcTold(f, data).signal; !IsAlert(n) && n != Suspended
  {
    hide CommandHeader;
  }

  lemma RequestIsCalm(f: FopVars, signal: Notification)
    requires Calm(f, signal)
    ensures var t := Looked(OnRequest(f).1, signal);
            && !(IsAlert(t.back) && !IsAlert(signal)) && t.back != Suspended
            && Calm(OnRequest(f).0, t.signal) && OnRequest(f).0.ss == f.ss && OnRequest(f).0.state == f.state
            && (OnRequest(f).1 == Ignored ==> f.state != Init)
  {
    hide LookForFdu;
    L.LookCounts(f.(wait := [Request(f.hdr, f.data)]));
  }

  lemma ResponseMeans(f: FopVars, r: Response, signal: Notification)
    requires Calm(f, signal)
    ensures var g := OnResponse(f, r);
            var t := ResponseTold(f, r, signal);
            && (f.state != Init ==> (IsAlert(t.back) <==> g.state == Init)) && t.back != Suspended && g.ss == f.ss
            && Calm(g, t.signal)
  {
    hide LookForFdu, Leading;
    L.LookCounts(f);
    if f.state != Init && r == AdAccept { LookTold(LookForFdu(f).1, signal); }
  }

  /** Whatever happens to a sender that is not in its initial state, other than a directive: an alert is
      returned exactly if the session is given up, and SUSPEND exactly if it is suspended. So it stays
      over every run: an alert left in `signal` never outlives the opening of the next session. */
  lemma AlertExactlyWhenGivenUp(f: FopVars, ev: FopEvent, signal: Notification)
    requires Calm(f, signal)
    ensures var g := FopStep(f, ev);
            var t := EventTold(f, ev, signal);
            && Calm(g, t.signal)
            && (f.state != Init && !ev.Directed? ==>
                  && (IsAlert(t.back) <==> g.state == Init && g.ss == 0)
                  && (t.back == Suspended <==> g.ss != 0))
  {
    hide Perform, Reaction, ClcwEvent, TimerEvent, Answer, DirectiveTold, ResponseTold, Looked, OnRequest, OnDirective,
         OnResponse;
    match ev {
      case ClcwArrives(c) =>
        NoEventIsIgnored(f, c.nr);
        if f.state != Init {
          AnswerMeans(f, ClcwEvent(f, c), c.nr, signal);
        } else {
          W.InitIgnores(f, c);
          InitIsQuiet(f, ev, signal);
        }
      case TimerExpires =>
        NoEventIsIgnored(f, 0);
        if f.state != Init {
          AnswerMeans(f, TimerEvent(f), 0, signal);
        } else {
          W.InitIgnores(f, Clcw(false, false, false, 0));
          InitIsQuiet(f, ev, signal);
        }
      case Requested => RequestIsCalm(f, signal);
      case Directed(d) => DirectiveIsCalm(f, d, signal);
      case Answered(r) => ResponseMeans(f, r, signal);
      case _ =>
    }
  }

  lemma NoEventIsIgnored(f: FopVars, nr: Counter)
    ensures Reaction(NoEvent, f.state) == Ignore && Perform(f, Ignore, nr) == f
  {
    hide RemoveAcked, LookForFdu, RetryAd, RetryBc, LookForDirective;
  }

  /** A report that acknowledges everything tells of what is sent next. If nothing waits, it is answered
      with the signal left from before instead, whatever that was: after an accepted request with
      ACCEPT_TX, although nothing was accepted. */
  lemma StaleAnswerExactly(f: FopVars, base: Counter, signal: Notification)
    requires W.Window(f, base) && W.Open(f.state) && f.sent != []
    ensures var t := ClcwTold(f, Clcw(false, false, false, f.vs), signal);
            if f.wait == [] then t == Both(signal)
            else t == Both(if |f.tx| < f.txCap then AcceptTx else UndefError)
  {
    var c := Clcw(false, false, false, f.vs);
    W.OutstandingIsSent(f, base);
    W.AcknowledgementIsExact(f, base, f.vs, |f.log|);
    var g := RemoveAcked(f, f.vs);
    assert ClcwEvent(f, c) == E2;
    assert g.sent == [] && Resend(g) == (g, true);
    hide RemoveAcked, Leading, Resend, RetryAd, RetryBc, LookForDirective, FirstMarked, ClcwEvent;
    assert Distance(g.vs, g.nnr) == 0;
  }
}
