/** FOP-1, the sending end of COP-1, as a table: every event selects one action for each of the
    six states. FopUnit.dfy holds the procedures and proves that they follow this table. */
module FopTable {
  import opened Octets
  import opened CopTypes

  datatype FopState = Active | RtNoWait | RtWait | InitNoBc | InitBc | Init

  /** An entry of the sent queue: a copy of the packed frame, its retransmit flag, the V(S) it was
      numbered with, and the service it was queued for. */
  datatype Item = Item(frame: Frame, rt: bool, seqNum: Counter, typeB: bool)

  /** The wait queue keeps a copy of the whole request. */
  datatype Request = Request(hdr: Header, data: seq<byte>)

  /** The FOP variables and its queues. `hdr` and `data` are the frame fields a user prepares;
      `tx` is the queue towards the uplink; `log` is a history variable no decision reads: the
      payloads of the type-A frames transmitted for the first time. */
  datatype FopVars = FopVars(
    state: FopState, vs: Counter, nnr: Counter, txCnt: Counter, txLim: Counter, wnd: Counter,
    timeoutType: Counter, ss: nat, hdr: Header, data: seq<byte>,
    sent: seq<Item>, sentCap: nat, wait: seq<Request>, tx: seq<Frame>, txCap: nat,
    log: seq<Segment>)

  datatype Notice = Accepted | Rejected | Delayed | Undefined | Ignored

  // ---------------------------------------------------------------------------------------
  // Queues
  // ---------------------------------------------------------------------------------------

  function Leading(sent: seq<Item>, nr: Counter): (k: nat)
    ensures k <= |sent|
    ensures forall i :: 0 <= i < k ==> sent[i].seqNum != nr
    ensures k < |sent| ==> sent[k].seqNum == nr
  {
    if sent == [] || sent[0].seqNum == nr then 0 else 1 + Leading(sent[1..], nr)
  }

  function FirstMarked(sent: seq<Item>): (k: nat)
    ensures k <= |sent|
    ensures forall i :: 0 <= i < k ==> !(sent[i].rt && !sent[i].typeB)
    ensures k < |sent| ==> sent[k].rt && !sent[k].typeB
  {
    if sent == [] || (sent[0].rt && !sent[0].typeB) then 0 else 1 + FirstMarked(sent[1..])
  }

  function Marked(item: Item): Item {
    if item.typeB then item else item.(rt := true)
  }

  function MarkAll(sent: seq<Item>): (r: seq<Item>)
    ensures |r| == |sent|
    ensures forall i :: 0 <= i < |sent| ==> r[i] == Marked(sent[i])
  {
    seq(|sent|, i requires 0 <= i < |sent| => Marked(sent[i]))
  }

  function ResetRt(sent: seq<Item>, seqNum: Counter): (r: seq<Item>)
    ensures |r| == |sent|
  {
    var j := Leading(sent, seqNum);
    if j < |sent| then sent[j := sent[j].(rt := false)] else sent
  }

  function ToUplink(f: FopVars, frame: Frame): (FopVars, bool) {
    if |f.tx| < f.txCap then (f.(tx := f.tx + [frame]), true) else (f, false)
  }

  // ---------------------------------------------------------------------------------------
  // Windows
  // ---------------------------------------------------------------------------------------

  /** Frames outstanding according to the counters. */
  function Outstanding(f: FopVars): Counter {
    Distance(f.vs, f.nnr)
  }

  /** The transmission window is open, as far as the code can tell. */
  predicate WindowTaken(vs: Counter, nnr: Counter, wnd: Counter) {
    Distance(vs, nnr) < wnd || (vs < nnr && nnr + wnd < 256)
  }

  /** N(R) acknowledges something between NN(R) and V(S). */
  predicate InRange(nr: Counter, vs: Counter, nnr: Counter) {
    Distance(nr, nnr) <= Distance(vs, nnr)
  }

  /** N(R), different from V(S), passes for in range: all of them as long as the window has not
      wrapped, and all but NN(R) itself once it has. */
  predicate RangeTaken(nr: Counter, vs: Counter, nnr: Counter) {
    if nnr <= vs then true else InRange(nr, vs, nnr) && nr != nnr
  }

  // ---------------------------------------------------------------------------------------
  // Actions
  // ---------------------------------------------------------------------------------------

  function Pack(f: FopVars, data: seq<byte>): Frame {
    Frame(f.hdr, if f.hdr.typeB then 0 else f.vs, data)
  }

  function Purged(f: FopVars): FopVars {
    f.(wait := [], sent := [])
  }

  function RemoveAcked(f: FopVars, nr: Counter): (g: FopVars)
    ensures g.state == f.state
  {
    var k := Leading(f.sent, nr);
    if k == 0 then f
    else f.(sent := f.sent[if k <= f.wnd then k else f.wnd + 1..], nnr := nr, txCnt := 1)
  }

  function TransmitAd(f: FopVars): (FopVars, bool)
    requires f.wait != []
  {
    var frame := Pack(f, f.wait[0].data);
    var g := f.(wait := f.wait[1..], txCnt := if f.sent == [] then 1 else f.txCnt,
                vs := Next(f.vs), log := f.log + [Payload(frame)]);
    if |f.sent| < f.sentCap
    then ToUplink(g.(sent := g.sent + [Item(frame, false, f.vs, false)]), frame)
    else (g, false)
  }

  /** Puts the first type-A frame marked for retransmission on the uplink again. */
  function Resend(f: FopVars): (FopVars, bool) {
    var i := FirstMarked(f.sent);
    if i < |f.sent|
    then ToUplink(f.(sent := ResetRt(f.sent, f.sent[i].seqNum)), f.sent[i].frame)
    else (f, true)
  }

  function LookForFdu(f: FopVars): (r: (FopVars, Notice))
    ensures r.0.state == f.state && r.1 != Rejected
  {
    var (g, ok) := Resend(f);
    if !ok then (g, Undefined)
    else if g.wait == [] then (g, Ignored)
    else if WindowTaken(g.vs, g.nnr, g.wnd) then
      var (h, done) := TransmitAd(g);
      (h, if done then Accepted else Undefined)
    else (g, Delayed)
  }

  function LookForDirective(f: FopVars): FopVars {
    if f.sent != [] && f.sent[0].rt && f.sent[0].typeB then
      var (g, ok) := ToUplink(f, f.sent[0].frame);
      if ok then g.(sent := ResetRt(g.sent, g.sent[0].seqNum)) else Purged(f).(state := Init)
    else f
  }

  /** Starts a retransmission: whatever waits for the uplink is dropped, the try is counted, and
      the type-A frames, or the control command at the head, are marked to be sent again. */
  function RetryAd(f: FopVars): (g: FopVars)
    ensures g.state == f.state
  {
    f.(tx := [], txCnt := Next(f.txCnt), sent := MarkAll(f.sent))
  }

  function RetryBc(f: FopVars): (g: FopVars)
    ensures g.state == f.state
  {
    f.(tx := [], txCnt := Next(f.txCnt),
       sent := if f.sent != [] && f.sent[0].typeB then f.sent[0 := f.sent[0].(rt := true)] else f.sent)
  }

  function TransmitBc(f: FopVars): (FopVars, bool) {
    var frame := Pack(f, f.data);
    var g := f.(txCnt := 1);
    if |f.sent| < f.sentCap
    then ToUplink(g.(sent := g.sent + [Item(frame, false, f.vs, true)]), frame)
    else (g, false)
  }

  datatype Action =
    | Ignore
    | Enter(next: FopState)
    | ReleaseBc
    | Alarm
    | Suspend(ss: nat)
    | Acknowledge(next: FopState)
    | AcknowledgeOnly(next: FopState)
    | AcknowledgeAlarm
    | AcknowledgeRetransmit(next: FopState)
    | Retransmit(next: FopState)
    | RetransmitBc

  function Perform(f: FopVars, a: Action, nr: Counter): FopVars {
    match a
    case Ignore => f
    case Enter(s) => f.(state := s)
    case ReleaseBc =>
      if f.sent == [] then f
      else f.(state := Active, sent := if f.sent[0].typeB then f.sent[1..] else f.sent)
    case Alarm => Purged(f).(state := Init)
    case Suspend(ss) => f.(ss := ss, state := Init)
    case Acknowledge(s) => LookForFdu(RemoveAcked(f, nr)).0.(state := s)
    case AcknowledgeOnly(s) => RemoveAcked(f, nr).(state := s)
    case AcknowledgeAlarm => Purged(RemoveAcked(f, nr)).(state := Init)
    case AcknowledgeRetransmit(s) => LookForFdu(RetryAd(RemoveAcked(f, nr))).0.(state := s)
    case Retransmit(s) => LookForFdu(RetryAd(f)).0.(state := s)
    case RetransmitBc => LookForDirective(RetryBc(f))
  }

  // ---------------------------------------------------------------------------------------
  // The table: what a CLCW or a timer expiry means, and what it does in each state
  // ---------------------------------------------------------------------------------------

  datatype Event = E1 | E2 | E3 | E4 | E5 | E6 | E7 | E101 | E102 | E8 | E9 | E10 | E11 | E12 | E103
                 | E13 | E14 | E16 | E104 | E17 | E18 | NoEvent

  function ClcwEvent(f: FopVars, c: Clcw): Event {
    if c.lockout then E14
    else if c.nr == f.vs then
      if c.retransmit then E4 else if c.wait then E3 else if c.nr == f.nnr then E1 else E2
    else if !RangeTaken(c.nr, f.vs, f.nnr) then E13
    else if !c.retransmit then
      if c.wait then E7 else if c.nr == f.nnr then E5 else E6
    else if f.txLim == 0 then NoEvent
    else if f.txLim == 1 then
      if c.nr != f.nnr then E101 else E102
    else if c.nr != f.nnr then
      if c.wait then E9 else E8
    else if f.txCnt < f.txLim then
      if c.wait then E11 else E10
    else
      if c.wait then E103 else E12
  }

  function TimerEvent(f: FopVars): Event {
    match f.timeoutType
    case 0 => if f.txCnt < f.txLim then E16 else E17
    case 1 => if f.txCnt < f.txLim then E104 else E18
    case _ => NoEvent
  }

  function Reaction(e: Event, s: FopState): Action {
    match (e, s)
    case (NoEvent, _) => Ignore
    case (_, Init) => Ignore
    // N(R) = V(S)
    case (E1, Active) => Ignore
    case (E1, InitNoBc) => Enter(Active)
    case (E1, InitBc) => ReleaseBc
    case (E1, _) => Alarm
    case (E2, InitNoBc) => Ignore
    case (E2, InitBc) => Ignore
    case (E2, _) => Acknowledge(s)
    case (E3, _) => Alarm
    case (E4, InitBc) => Ignore
    case (E4, _) => Alarm
    // NN(R) <= N(R) < V(S)
    case (E5, RtNoWait) => Alarm
    case (E5, RtWait) => Alarm
    case (E5, _) => Ignore
    case (E13, InitBc) => Ignore
    case (E13, _) => Alarm
    case (E14, InitBc) => Ignore
    case (E14, _) => Alarm
    // the timer in the initialising states
    case (E16, InitNoBc) => Alarm
    case (E104, InitNoBc) => Suspend(4)
    case (E16, InitBc) => RetransmitBc
    case (E104, InitBc) => RetransmitBc
    case (E17, _) => Alarm
    case (E18, Active) => Suspend(1)
    case (E18, RtNoWait) => Suspend(2)
    case (E18, RtWait) => Suspend(3)
    case (E18, InitNoBc) => Suspend(4)
    case (E18, InitBc) => Alarm
    case (_, InitNoBc) => Ignore
    case (_, InitBc) => Ignore
    // retransmission in the states of an open session
    case (E6, RtNoWait) => Acknowledge(Active)
    case (E6, RtWait) => Acknowledge(Active)
    case (E6, _) => Acknowledge(s)
    case (E7, _) => Alarm
    case (E101, _) => AcknowledgeAlarm
    case (E102, _) => Alarm
    case (E8, _) => AcknowledgeRetransmit(RtNoWait)
    case (E9, _) => AcknowledgeOnly(RtWait)
    case (E10, RtNoWait) => Ignore
    case (E10, _) => Retransmit(RtNoWait)
    case (E11, _) => Enter(RtWait)
    case (E12, _) => Enter(RtNoWait)
    case (E103, _) => Enter(RtWait)
    case (E16, RtWait) => Ignore
    case (E104, RtWait) => Ignore
    case (E16, _) => Retransmit(s)
    case (E104, _) => Retransmit(s)
  }

  function OnClcw(f: FopVars, c: Clcw): FopVars {
    Perform(f, Reaction(ClcwEvent(f, c), f.state), c.nr)
  }

  function OnTimer(f: FopVars): FopVars {
    Perform(f, Reaction(TimerEvent(f), f.state), 0)
  }

  // ---------------------------------------------------------------------------------------
  // Requests, directives and responses of the lower layer
  // ---------------------------------------------------------------------------------------

  function Prepare(f: FopVars, hdr: Header, data: seq<byte>): FopVars {
    f.(hdr := hdr, data := data)
  }

  function OnRequest(f: FopVars): (FopVars, Notice) {
    if !f.hdr.typeB then
      if f.wait != [] then (f, Rejected)
      else
        match f.state
        case Active => LookForFdu(f.(wait := [Request(f.hdr, f.data)]))
        case RtNoWait => LookForFdu(f.(wait := [Request(f.hdr, f.data)]))
        case RtWait => (f.(wait := [Request(f.hdr, f.data)]), Delayed)
        case _ => (f, Rejected)
    else if !f.hdr.command then
      var (g, ok) := ToUplink(f, Pack(f, f.data));
      (g, if ok then Accepted else Rejected)
    else (f, Undefined)
  }

  function Initialized(f: FopVars): FopVars {
    Purged(f).(txCnt := 1, ss := 0)
  }

  function CommandHeader(f: FopVars): Header {
    Header(true, true, f.hdr.seg.(flag := Unseg))
  }

  function WithBc(f: FopVars, data: seq<byte>): FopVars {
    var (g, ok) := TransmitBc(Prepare(f, CommandHeader(f), data));
    if ok then g.(state := InitBc) else g
  }

  datatype Directive =
    | InitiateNoClcw | InitiateWithClcw | InitiateWithUnlock | InitiateWithSetVr(newVr: Counter)
    | TerminateAd | ResumeAd | SetNewVs(newVs: Counter) | SetWindow(newWnd: Counter)
    | SetTxLimit(newLim: Counter) | SetTimeoutType(newType: Counter)

  /** A suspended session continues in the state it was suspended from. */
  function Resumed(f: FopVars): FopVars {
    if f.ss == 1 then f.(ss := 0, state := Active)
    else if f.ss == 2 then f.(ss := 0, state := RtNoWait)
    else if f.ss == 3 then f.(ss := 0, state := RtWait)
    else if f.ss == 4 then f.(ss := 0, state := InitNoBc)
    else f
  }

  function OnDirective(f: FopVars, d: Directive): FopVars {
    match d
    case SetWindow(k) => f.(wnd := k)
    case SetTxLimit(l) => f.(txLim := l)
    case SetTimeoutType(t) => f.(timeoutType := t)
    case TerminateAd => if f.state == Init then f else Purged(f).(state := Init)
    case InitiateNoClcw => if f.state == Init then Initialized(f).(state := Active) else f
    case InitiateWithClcw => if f.state == Init then Initialized(f).(state := InitNoBc) else f
    case InitiateWithUnlock => if f.state == Init then WithBc(Initialized(f), [UNLOCK_CMD]) else f
    case InitiateWithSetVr(v) =>
      if f.state == Init
      then WithBc(Initialized(f).(vs := v, nnr := v), [SETVR_BYTE1, SETVR_BYTE2, v as byte])
      else f
    case SetNewVs(v) => if f.state == Init && f.ss == 0 then f.(vs := v, nnr := v) else f
    case ResumeAd => if f.state == Init then Resumed(f) else f
  }

  datatype Response = AdAccept | AdReject | BcAccept | BcReject | BdAccept | BdReject

  function OnResponse(f: FopVars, r: Response): FopVars {
    match r
    case AdAccept => if f.state == Active || f.state == RtNoWait then LookForFdu(f).0 else f
    case BcAccept => if f.state == InitBc then LookForDirective(f) else f
    case BdAccept => f
    case _ => Purged(f).(state := Init)
  }

  // ---------------------------------------------------------------------------------------
  // Everything that can happen to the sender
  // ---------------------------------------------------------------------------------------

  datatype FopEvent =
    | ClcwArrives(clcw: Clcw) | TimerExpires | Prepared(hdr: Header, data: seq<byte>) | Requested
    | Directed(directive: Directive) | Answered(response: Response) | Drained(position: nat)

  /** `Drained` is the lower layer taking a frame from the uplink queue. */
  function FopStep(f: FopVars, ev: FopEvent): FopVars {
    match ev
    case ClcwArrives(c) => OnClcw(f, c)
    case TimerExpires => OnTimer(f)
    case Prepared(hdr, data) => Prepare(f, hdr, data)
    case Requested => OnRequest(f).0
    case Directed(d) => OnDirective(f, d)
    case Answered(r) => OnResponse(f, r)
    case Drained(i) => if i < |f.tx| then f.(tx := f.tx[..i] + f.tx[i + 1..]) else f
  }
}
