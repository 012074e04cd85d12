/** The sliding window of FOP-1: in an open session the sent queue holds exactly the type-A frames
    numbered NN(R) .. V(S)-1, and every event keeps it that way. */
module FopWindow {
  import opened Octets
  import opened CopTypes
  import opened FopTable

  // ---------------------------------------------------------------------------------------
  // Unbounded numbering. Frame k is the k-th type-A frame of the session, counted from zero;
  // its sequence number is (base + k) mod 256.
  // ---------------------------------------------------------------------------------------

  function Number(base: Counter, k: nat): Counter {
    (base + k) % 256
  }

  function FrameAt(base: Counter, log: seq<Segment>, k: nat): Frame
    requires k < |log|
  {
    Frame(Header(false, false, log[k].seg), Number(base, k), log[k].data)
  }

  ghost predicate ItemAt(item: Item, base: Counter, log: seq<Segment>, k: nat)
    requires k < |log|
  {
    !item.typeB && item.seqNum == Number(base, k) && item.frame == FrameAt(base, log, k)
  }

  /** Frames the receiver has acknowledged. */
  ghost function Acked(f: FopVars): int {
    |f.log| - |f.sent|
  }

  /** The sent queue holds the last |sent| frames of the log, in order, as type-A items whose
      numbers are those packed in their frames; V(S) and NN(R) are the numbers of its two ends; it
      is no longer than the window; at most one request waits, and nobody has touched the header
      fields since. */
  ghost predicate Window(f: FopVars, base: Counter) {
    && |f.sent| <= |f.log| && |f.sent| <= f.wnd <= f.sentCap
    && f.vs == Number(base, |f.log|)
    && f.nnr == Number(base, Acked(f))
    && (forall i :: 0 <= i < |f.sent| ==> ItemAt(f.sent[i], base, f.log, Acked(f) + i))
    && |f.wait| <= 1
    && (f.wait != [] ==> f.hdr == f.wait[0].hdr && !f.hdr.typeB)
    && (!f.hdr.typeB ==> !f.hdr.command)
  }

  /** The type-A payloads handed over so far: first transmitted, or waiting to be. */
  function Submitted(f: FopVars): seq<Segment> {
    f.log + if f.wait == [] then [] else [Segment(f.wait[0].hdr.seg, f.wait[0].data)]
  }

  lemma NumbersApart(base: Counter, j: nat, k: nat)
    requires j <= k < j + 256
    ensures Distance(Number(base, k), Number(base, j)) == k - j
    ensures Number(base, j) == Number(base, k) ==> j == k
  {
  }

  /** In the window the counters measure the sent queue. */
  lemma OutstandingIsSent(f: FopVars, base: Counter)
    requires Window(f, base)
    ensures Outstanding(f) == |f.sent|
    ensures WindowTaken(f.vs, f.nnr, f.wnd) <==> |f.sent| < f.wnd
  {
    NumbersApart(base, Acked(f), |f.log|);
    WindowTestExact(f.vs, f.nnr, f.wnd);
  }

  /** The code's window test lets a frame through exactly when fewer than K are outstanding, as
      long as no more than K are; it errs only after the window was made smaller than that, and
      only if the numbers wrap between NN(R) and V(S). */
  lemma WindowTestExact(vs: Counter, nnr: Counter, wnd: Counter)
    ensures Distance(vs, nnr) <= wnd ==> (WindowTaken(vs, nnr, wnd) <==> Distance(vs, nnr) < wnd)
    ensures !(WindowTaken(vs, nnr, wnd) <==> Distance(vs, nnr) < wnd)
            <==> Distance(vs, nnr) > wnd && vs < nnr && nnr + wnd < 256
  {
  }

  // ---------------------------------------------------------------------------------------
  // Acknowledgement
  // ---------------------------------------------------------------------------------------

  /** N(R) stands for frame `a` of the session: everything before it has been received. */
  ghost predicate Acknowledges(f: FopVars, base: Counter, nr: Counter, a: nat) {
    nr == Number(base, a) && Acked(f) <= a <= |f.log|
  }

  /** Every N(R) between NN(R) and V(S) on the circle stands for exactly one frame. */
  lemma InRangeAcknowledges(f: FopVars, base: Counter, nr: Counter) returns (a: nat)
    requires Window(f, base) && InRange(nr, f.vs, f.nnr)
    ensures Acknowledges(f, base, nr, a) && a == Acked(f) + Distance(nr, f.nnr)
  {
    OutstandingIsSent(f, base);
    a := Acked(f) + Distance(nr, f.nnr);
    NumberAhead(base, Acked(f), nr);
  }

  lemma NumberAhead(base: Counter, k: nat, x: Counter)
    ensures Number(base, k + Distance(x, Number(base, k))) == x
  {
  }

  lemma LeadingInWindow(f: FopVars, base: Counter, nr: Counter, a: nat)
    requires Window(f, base) && Acknowledges(f, base, nr, a)
    ensures Leading(f.sent, nr) == a - Acked(f)
  {
    hide Leading;
    var k := Leading(f.sent, nr);
    var d := a - Acked(f);
    if d < |f.sent| {
      assert ItemAt(f.sent[d], base, f.log, Acked(f) + d);
    }
    assert k <= d;
    if k < |f.sent| {
      assert ItemAt(f.sent[k], base, f.log, Acked(f) + k);
      NumbersApart(base, Acked(f) + k, a);
    }
  }

  /** An acknowledgement removes exactly the (N(R) - NN(R)) mod 256 frames before N(R), never trips
      the counter guard, moves NN(R) to N(R), and restarts the transmission count exactly when it
      removed something. */
  lemma AcknowledgementIsExact(f: FopVars, base: Counter, nr: Counter, a: nat)
    requires Window(f, base) && Acknowledges(f, base, nr, a)
    ensures var g := RemoveAcked(f, nr);
            && Leading(f.sent, nr) == Distance(nr, f.nnr) == a - Acked(f) <= f.wnd
            && g.sent == f.sent[Distance(nr, f.nnr)..] && g.nnr == nr
            && (g.txCnt == if a > Acked(f) then 1 else f.txCnt)
            && g == f.(sent := g.sent, nnr := nr, txCnt := g.txCnt)
            && Window(g, base) && Acked(g) == a
  {
    hide Leading;
    LeadingInWindow(f, base, nr, a);
    NumbersApart(base, Acked(f), a);
    var g := RemoveAcked(f, nr);
    forall i | 0 <= i < |g.sent|
      ensures ItemAt(g.sent[i], base, g.log, Acked(g) + i)
    {
      assert g.sent[i] == f.sent[a - Acked(f) + i];
      assert ItemAt(f.sent[a - Acked(f) + i], base, f.log, Acked(f) + (a - Acked(f) + i));
    }
  }

  // ---------------------------------------------------------------------------------------
  // Transmission
  // ---------------------------------------------------------------------------------------

  ghost predicate Below(idx: seq<nat>, n: nat) {
    forall i :: 0 <= i < |idx| ==> idx[i] < n
  }

  ghost predicate AtLeast(idx: seq<nat>, lo: int) {
    forall i :: 0 <= i < |idx| ==> lo <= idx[i]
  }

  ghost function Frames(base: Counter, log: seq<Segment>, idx: seq<nat>): (r: seq<Frame>)
    requires Below(idx, |log|)
    ensures |r| == |idx|
  {
    seq(|idx|, i requires 0 <= i < |idx| => FrameAt(base, log, idx[i]))
  }

  /** `g` is reached from `f` within the session: the window holds again, nothing that was
      acknowledged is forgotten, no submission is lost, and what is added to the uplink are the
      outstanding frames `idx`. */
  ghost predicate Advances(f: FopVars, g: FopVars, base: Counter, kept: seq<Frame>, idx: seq<nat>) {
    && Window(g, base)
    && f.log <= g.log && Submitted(g) == Submitted(f)
    && Acked(f) <= Acked(g)
    && Below(idx, |g.log|) && AtLeast(idx, Acked(g))
    && g.tx == kept + Frames(base, g.log, idx)
    && g.wnd == f.wnd && g.ss == f.ss && g.hdr == f.hdr && g.sentCap == f.sentCap
    && g.txLim == f.txLim && g.timeoutType == f.timeoutType && g.txCap == f.txCap
  }

  lemma MarkedInWindow(f: FopVars, base: Counter)
    requires Window(f, base)
    ensures Window(RetryAd(f), base)
  {
    var g := RetryAd(f);
    forall i | 0 <= i < |g.sent|
      ensures ItemAt(g.sent[i], base, g.log, Acked(g) + i)
    {
      assert ItemAt(f.sent[i], base, f.log, Acked(f) + i);
    }
  }

  /** Resetting the mark by sequence number resets the item it was read from. */
  lemma ResetHitsItem(f: FopVars, base: Counter, i: nat)
    requires Window(f, base) && i < |f.sent|
    ensures ResetRt(f.sent, f.sent[i].seqNum) == f.sent[i := f.sent[i].(rt := false)]
  {
    hide Leading;
    assert ItemAt(f.sent[i], base, f.log, Acked(f) + i);
    var j := Leading(f.sent, f.sent[i].seqNum);
    if j < i {
      assert ItemAt(f.sent[j], base, f.log, Acked(f) + j);
      NumbersApart(base, Acked(f) + j, Acked(f) + i);
      assert false;
    }
  }

  lemma UnmarkedInWindow(f: FopVars, base: Counter, i: nat)
    requires Window(f, base) && i < |f.sent|
    ensures Window(f.(sent := f.sent[i := f.sent[i].(rt := false)]), base)
    ensures f.sent[i].frame == FrameAt(base, f.log, Acked(f) + i)
  {
    var g := f.(sent := f.sent[i := f.sent[i].(rt := false)]);
    forall j | 0 <= j < |g.sent|
      ensures ItemAt(g.sent[j], base, g.log, Acked(g) + j)
    {
      assert ItemAt(f.sent[j], base, f.log, Acked(f) + j);
    }
    assert ItemAt(f.sent[i], base, f.log, Acked(f) + i);
  }

  lemma UplinkInWindow(f: FopVars, base: Counter, tx: seq<Frame>)
    requires Window(f, base)
    ensures Window(f.(tx := tx), base)
  {
    var g := f.(tx := tx);
    forall j | 0 <= j < |g.sent|
      ensures ItemAt(g.sent[j], base, g.log, Acked(g) + j)
    {
      assert ItemAt(f.sent[j], base, f.log, Acked(f) + j);
    }
  }

  lemma ResendAdvances(f: FopVars, base: Counter) returns (idx: seq<nat>)
    requires Window(f, base)
    ensures var g := Resend(f).0;
            Advances(f, g, base, f.tx, idx) && g.log == f.log && g.wait == f.wait && Acked(g) == Acked(f)
  {
    hide FirstMarked;
    var i := FirstMarked(f.sent);
    var g := Resend(f).0;
    idx := [];
    if i < |f.sent| {
      ResetHitsItem(f, base, i);
      UnmarkedInWindow(f, base, i);
      hide ResetRt, Window;
      if |f.tx| < f.txCap {
        UplinkInWindow(f.(sent := f.sent[i := f.sent[i].(rt := false)]), base, g.tx);
        idx := [Acked(f) + i];
        assert g.tx == f.tx + Frames(base, g.log, idx);
      }
    }
    if idx == [] {
      assert f.tx + Frames(base, g.log, idx) == f.tx;
    }
  }

  lemma TransmitAdvances(f: FopVars, base: Counter) returns (idx: seq<nat>)
    requires Window(f, base) && f.wait != [] && |f.sent| < f.wnd
    ensures var g := TransmitAd(f).0;
            Advances(f, g, base, f.tx, idx) && |g.log| == |f.log| + 1 && Acked(g) == Acked(f)
  {
    var g := TransmitAd(f).0;
    var n := |f.log|;
    assert Pack(f, f.wait[0].data) == FrameAt(base, g.log, n);
    forall i | 0 <= i < |g.sent|
      ensures ItemAt(g.sent[i], base, g.log, Acked(g) + i)
    {
      if i < |f.sent| {
        assert ItemAt(f.sent[i], base, f.log, Acked(f) + i);
      }
    }
    idx := if |f.tx| < f.txCap then [n] else [];
    assert g.tx == f.tx + Frames(base, g.log, idx);
    assert Submitted(g) == Submitted(f);
    NextNumber(base, n);
  }

  lemma NextNumber(base: Counter, n: nat)
    ensures Next(Number(base, n)) == Number(base, n + 1)
  {
  }

  lemma FramesExtend(base: Counter, log: seq<Segment>, log': seq<Segment>, u: seq<nat>, v: seq<nat>)
    requires Below(u, |log|) && log <= log' && Below(v, |log'|)
    ensures Below(u + v, |log'|)
    ensures Frames(base, log, u) + Frames(base, log', v) == Frames(base, log', u + v)
  {
  }

  /** Looking for a frame to send keeps the window, whether or not the uplink takes the frames. */
  lemma LookAdvances(f: FopVars, base: Counter) returns (idx: seq<nat>)
    requires Window(f, base)
    ensures Advances(f, LookForFdu(f).0, base, f.tx, idx) && Acked(LookForFdu(f).0) == Acked(f)
  {
    hide Resend, TransmitAd, Window, WindowTaken;
    idx := ResendAdvances(f, base);
    var g := Resend(f).0;
    OutstandingIsSent(g, base);
    if Resend(f).1 && g.wait != [] && WindowTaken(g.vs, g.nnr, g.wnd) {
      var more := TransmitAdvances(g, base);
      var h := TransmitAd(g).0;
      FramesExtend(base, g.log, h.log, idx, more);
      assert f.tx + Frames(base, g.log, idx) + Frames(base, h.log, more)
          == f.tx + (Frames(base, g.log, idx) + Frames(base, h.log, more));
      idx := idx + more;
    }
  }

  // ---------------------------------------------------------------------------------------
  // Every event
  // ---------------------------------------------------------------------------------------

  predicate Open(s: FopState) {
    s == Active || s == RtNoWait || s == RtWait
  }

  /** The session was given up: the queues are purged and the sender is in its initial state. */
  ghost predicate GivenUp(f: FopVars, g: FopVars) {
    && g.state == Init && g.sent == [] && g.wait == [] && g.tx == f.tx && g.log == f.log && g.ss == f.ss
    && g.hdr == f.hdr && g.wnd == f.wnd
  }

  /** Suspension keeps everything but the two state variables. */
  ghost predicate Suspends(f: FopVars, g: FopVars) {
    && g == f.(state := Init, ss := g.ss)
    && g.ss == (match f.state case Active => 1 case RtNoWait => 2 case RtWait => 3 case _ => 4)
  }

  lemma AcknowledgeLook(f: FopVars, base: Counter, nr: Counter, a: nat) returns (idx: seq<nat>)
    requires Window(f, base) && Acknowledges(f, base, nr, a)
    ensures var g := LookForFdu(RemoveAcked(f, nr)).0;
            Advances(f, g, base, f.tx, idx) && Acked(g) == a
  {
    hide RemoveAcked, LookForFdu, Leading;
    AcknowledgementIsExact(f, base, nr, a);
    idx := LookAdvances(RemoveAcked(f, nr), base);
  }

  lemma RetryLook(f: FopVars, base: Counter) returns (idx: seq<nat>)
    requires Window(f, base)
    ensures var g := LookForFdu(RetryAd(f)).0;
            Advances(f, g, base, [], idx) && Acked(g) == Acked(f)
  {
    hide LookForFdu;
    MarkedInWindow(f, base);
    idx := LookAdvances(RetryAd(f), base);
  }

  lemma AcknowledgeRetryLook(f: FopVars, base: Counter, nr: Counter, a: nat) returns (idx: seq<nat>)
    requires Window(f, base) && Acknowledges(f, base, nr, a)
    ensures var g := LookForFdu(RetryAd(RemoveAcked(f, nr))).0;
            Advances(f, g, base, [], idx) && Acked(g) == a
  {
    hide RemoveAcked, LookForFdu, RetryAd, Leading;
    AcknowledgementIsExact(f, base, nr, a);
    idx := RetryLook(RemoveAcked(f, nr), base);
  }

  /** An action of the table that can come up in an open session. */
  predicate InSession(a: Action) {
    match a
    case ReleaseBc => false
    case RetransmitBc => false
    case Enter(s) => Open(s)
    case Acknowledge(s) => Open(s)
    case AcknowledgeOnly(s) => Open(s)
    case AcknowledgeRetransmit(s) => Open(s)
    case Retransmit(s) => Open(s)
    case Suspend(ss) => 1 <= ss <= 3
    case _ => true
  }

  lemma OpenSessionReaction(e: Event, s: FopState)
    requires Open(s)
    ensures InSession(Reaction(e, s))
    ensures forall ss :: Reaction(e, s) == Suspend(ss) ==>
              ss == (match s case Active => 1 case RtNoWait => 2 case RtWait => 3 case _ => 4)
  {
  }

  /** What any action does to an open session: it keeps the window, gives the session up, or
      suspends it. */
  ghost predicate Outcome(f: FopVars, g: FopVars, base: Counter, kept: seq<Frame>, idx: seq<nat>) {
    || (Open(g.state) && Advances(f, g, base, kept, idx) && (kept == f.tx || kept == []))
    || GivenUp(f, g)
    || Suspends(f, g)
  }

  lemma AdvancesInAnyState(f: FopVars, g: FopVars, base: Counter, kept: seq<Frame>, idx: seq<nat>, s: FopState)
    requires Advances(f, g, base, kept, idx)
    ensures Advances(f, g.(state := s), base, kept, idx)
  {
    var h := g.(state := s);
    forall i | 0 <= i < |h.sent| ensures ItemAt(h.sent[i], base, h.log, Acked(h) + i) {
      assert ItemAt(g.sent[i], base, g.log, Acked(g) + i);
    }
  }

  lemma StandsStill(f: FopVars, base: Counter)
    requires Window(f, base)
    ensures Advances(f, f, base, f.tx, [])
  {
    assert f.tx + Frames(base, f.log, []) == f.tx;
  }

  lemma AcknowledgeAdvances(f: FopVars, base: Counter, nr: Counter, a: nat)
    requires Window(f, base) && Acknowledges(f, base, nr, a)
    ensures Advances(f, RemoveAcked(f, nr), base, f.tx, []) && Acked(RemoveAcked(f, nr)) == a
  {
    hide RemoveAcked, Leading;
    AcknowledgementIsExact(f, base, nr, a);
    assert f.tx + Frames(base, f.log, []) == f.tx;
  }

  lemma PerformInSession(f: FopVars, base: Counter, act: Action, nr: Counter, a: nat)
      returns (kept: seq<Frame>, idx: seq<nat>)
    requires Window(f, base) && Open(f.state) && InSession(act)
    requires act.Acknowledge? || act.AcknowledgeOnly? || act.AcknowledgeAlarm? || act.AcknowledgeRetransmit?
             ==> Acknowledges(f, base, nr, a)
    requires act.Suspend? ==> act.ss == (match f.state case Active => 1 case RtNoWait => 2 case RtWait => 3 case _ => 4)
    ensures Outcome(f, Perform(f, act, nr), base, kept, idx)
    ensures Open(Perform(f, act, nr).state) ==>
              var moved := act.Acknowledge? || act.AcknowledgeOnly? || act.AcknowledgeRetransmit?;
              Acked(Perform(f, act, nr)) == if moved then a else Acked(f)
  {
    hide RemoveAcked, LookForFdu, RetryAd, Window, Advances, Acknowledges;
    kept, idx := f.tx, [];
    match act {
      case Ignore => StandsStill(f, base);
      case Enter(s) =>
        StandsStill(f, base);
        AdvancesInAnyState(f, f, base, f.tx, [], s);
      case Acknowledge(s) =>
        idx := AcknowledgeLook(f, base, nr, a);
        AdvancesInAnyState(f, LookForFdu(RemoveAcked(f, nr)).0, base, kept, idx, s);
      case AcknowledgeRetransmit(s) =>
        kept := [];
        idx := AcknowledgeRetryLook(f, base, nr, a);
        AdvancesInAnyState(f, LookForFdu(RetryAd(RemoveAcked(f, nr))).0, base, kept, idx, s);
      case Retransmit(s) =>
        kept := [];
        idx := RetryLook(f, base);
        AdvancesInAnyState(f, LookForFdu(RetryAd(f)).0, base, kept, idx, s);
      case AcknowledgeOnly(s) =>
        AcknowledgeAdvances(f, base, nr, a);
        AcknowledgementKeepsRest(f, nr);
        AdvancesInAnyState(f, RemoveAcked(f, nr), base, kept, idx, s);
      case AcknowledgeAlarm => AcknowledgementKeepsRest(f, nr);
      case _ =>
    }
  }

  lemma AcknowledgementKeepsRest(f: FopVars, nr: Counter)
    ensures var g := RemoveAcked(f, nr); g == f.(sent := g.sent, nnr := g.nnr, txCnt := g.txCnt)
  {
  }

  /** A CLCW whose N(R) lies between NN(R) and V(S). */
  lemma ClcwKeepsWindow(f: FopVars, base: Counter, c: Clcw) returns (kept: seq<Frame>, idx: seq<nat>)
    requires Window(f, base) && Open(f.state) && InRange(c.nr, f.vs, f.nnr)
    ensures Outcome(f, OnClcw(f, c), base, kept, idx)
    ensures Open(OnClcw(f, c).state) ==>
              Acked(OnClcw(f, c)) == Acked(f) || Acked(OnClcw(f, c)) == Acked(f) + Distance(c.nr, f.nnr)
  {
    hide Perform, Reaction, ClcwEvent;
    var a := InRangeAcknowledges(f, base, c.nr);
    OpenSessionReaction(ClcwEvent(f, c), f.state);
    kept, idx := PerformInSession(f, base, Reaction(ClcwEvent(f, c), f.state), c.nr, a);
  }

  lemma TimerReactionAcknowledgesNothing(f: FopVars)
    requires Open(f.state)
    ensures var act := Reaction(TimerEvent(f), f.state);
            !act.Acknowledge? && !act.AcknowledgeOnly? && !act.AcknowledgeAlarm? && !act.AcknowledgeRetransmit?
  {
  }

  lemma TimerKeepsWindow(f: FopVars, base: Counter) returns (kept: seq<Frame>, idx: seq<nat>)
    requires Window(f, base) && Open(f.state)
    ensures Outcome(f, OnTimer(f), base, kept, idx)
    ensures Open(OnTimer(f).state) ==> Acked(OnTimer(f)) == Acked(f)
  {
    TimerReactionAcknowledgesNothing(f);
    hide Perform, Reaction, TimerEvent;
    OpenSessionReaction(TimerEvent(f), f.state);
    kept, idx := PerformInSession(f, base, Reaction(TimerEvent(f), f.state), 0, 0);
  }

  // ---------------------------------------------------------------------------------------
  // The rules a user of the session keeps, and what every event then does
  // ---------------------------------------------------------------------------------------

  /** A report acknowledges something outstanding; the header fields are left alone while a request
      waits, and a type-A header is not a command; the window is not made smaller than what is
      outstanding nor larger than the sent queue; no new session is started over a suspended one (an
      open one ignores the attempt); and the lower layer rejects nothing while the session is
      suspended. */
  predicate Disciplined(f: FopVars, ev: FopEvent) {
    match ev
    case ClcwArrives(c) => Open(f.state) ==> InRange(c.nr, f.vs, f.nnr)
    case Prepared(hdr, _) => f.wait == [] && (!hdr.typeB ==> !hdr.command)
    case Directed(d) =>
      (match d
       case SetWindow(k) => Outstanding(f) <= k <= f.sentCap
       case InitiateNoClcw => f.state != Init
       case InitiateWithClcw => f.state != Init
       case InitiateWithUnlock => f.state != Init
       case InitiateWithSetVr(_) => f.state != Init
       case SetNewVs(_) => f.state != Init
       case _ => true)
    case Answered(r) => f.state == Init && f.ss != 0 ==> r in {AdAccept, BcAccept, BdAccept}
    case _ => true
  }

  /** Frames put on the uplink: type-B frames, or outstanding frames of the session. */
  ghost predicate Added(g: FopVars, base: Counter, added: seq<Frame>, idx: seq<nat>) {
    && |added| == |idx|
    && forall i :: 0 <= i < |added| ==>
         if added[i].hdr.typeB then !added[i].hdr.command
         else Acked(g) <= idx[i] < |g.log| && added[i] == FrameAt(base, g.log, idx[i])
  }

  /** The session goes on: the window holds, the log only grows, acknowledgements are not taken
      back, and the uplink gets only such frames, after its old content or instead of it. */
  ghost predicate GoesOn(f: FopVars, g: FopVars, base: Counter, kept: seq<Frame>, added: seq<Frame>, idx: seq<nat>) {
    && Window(g, base)
    && f.log <= g.log
    && Acked(f) <= Acked(g)
    && (kept == f.tx || kept == []) && g.tx == kept + added && Added(g, base, added, idx)
    && g.sentCap == f.sentCap
  }

  lemma AdvancesGoesOn(f: FopVars, g: FopVars, base: Counter, kept: seq<Frame>, idx: seq<nat>)
    requires Advances(f, g, base, kept, idx) && (kept == f.tx || kept == [])
    ensures GoesOn(f, g, base, kept, Frames(base, g.log, idx), idx) && Submitted(g) == Submitted(f)
  {
  }

  /** The type-A payload an event hands over to the sender: that of a request it does not reject. */
  function HandedOver(f: FopVars, ev: FopEvent): seq<Segment> {
    if ev.Requested? && !f.hdr.typeB && OnRequest(f).1 != Rejected then [Segment(f.hdr.seg, f.data)] else []
  }

  /** A request of the type-A service joins the submissions exactly when it is not rejected. */
  lemma RequestKeepsWindow(f: FopVars, base: Counter) returns (added: seq<Frame>, idx: seq<nat>)
    requires Window(f, base) && Open(f.state)
    ensures var (g, notice) := OnRequest(f);
            && GoesOn(f, g, base, f.tx, added, idx) && Acked(g) == Acked(f)
            && g.state == f.state && g.ss == f.ss && g.wnd == f.wnd
            && Submitted(g) == Submitted(f) + HandedOver(f, Requested)
            && (!f.hdr.typeB ==> (notice == Rejected <==> f.wait != []))
  {
    hide LookForFdu;
    added, idx := [], [];
    assert f.tx + [] == f.tx;
    if f.hdr.typeB {
      if !f.hdr.command && |f.tx| < f.txCap {
        added, idx := [Pack(f, f.data)], [0];
      }
    } else if f.wait == [] {
      var f1 := f.(wait := [Request(f.hdr, f.data)]);
      assert Window(f1, base) by {
        forall i | 0 <= i < |f1.sent| ensures ItemAt(f1.sent[i], base, f1.log, Acked(f1) + i) {
          assert ItemAt(f.sent[i], base, f.log, Acked(f) + i);
        }
      }
      assert Submitted(f1) == Submitted(f) + [Segment(f.hdr.seg, f.data)];
      if f.state != RtWait {
        idx := LookAdvances(f1, base);
        AdvancesGoesOn(f1, LookForFdu(f1).0, base, f.tx, idx);
        added := Frames(base, LookForFdu(f1).0.log, idx);
      }
    }
  }

  ghost predicate Running(f: FopVars, base: Counter) {
    Window(f, base) && Open(f.state) && f.ss == 0
  }

  ghost predicate Paused(f: FopVars, base: Counter) {
    Window(f, base) && f.state == Init && 1 <= f.ss <= 3
  }

  ghost predicate Over(f: FopVars) {
    f.state == Init && f.ss == 0 && f.sent == [] && f.wait == [] && (!f.hdr.typeB ==> !f.hdr.command)
  }

  /** The possible outcomes of an event in a session. */
  ghost predicate Outcomes(f: FopVars, g: FopVars, base: Counter, kept: seq<Frame>, added: seq<Frame>, idx: seq<nat>) {
    || ((Running(g, base) || Paused(g, base)) && GoesOn(f, g, base, kept, added, idx))
    || (Over(g) && g.log == f.log && g.tx == f.tx && kept == f.tx && added == [] && idx == [])
  }

  lemma OutcomeOfAction(f: FopVars, g: FopVars, base: Counter, kept: seq<Frame>, idx: seq<nat>)
      returns (kept': seq<Frame>, added: seq<Frame>, idx': seq<nat>)
    requires Running(f, base) && Outcome(f, g, base, kept, idx)
    ensures Outcomes(f, g, base, kept', added, idx')
    ensures g.wnd == f.wnd && (Open(g.state) || Over(g) || Acked(g) == Acked(f))
    ensures Over(g) || Submitted(g) == Submitted(f)
  {
    kept', added, idx' := f.tx, [], [];
    assert f.tx + [] == f.tx;
    if Open(g.state) {
      AdvancesGoesOn(f, g, base, kept, idx);
      return kept, Frames(base, g.log, idx), idx;
    } else if Suspends(f, g) {
      forall i | 0 <= i < |g.sent| ensures ItemAt(g.sent[i], base, g.log, Acked(g) + i) {
        assert ItemAt(f.sent[i], base, f.log, Acked(f) + i);
      }
    }
  }

  lemma ChangeKeepsWindow(f: FopVars, g: FopVars, base: Counter)
    requires Window(f, base)
    requires g.sent == f.sent && g.log == f.log && g.vs == f.vs && g.nnr == f.nnr && g.wait == f.wait
    requires |g.sent| <= g.wnd <= g.sentCap && g.sentCap == f.sentCap && g.tx == f.tx
    requires f.wait != [] ==> g.hdr == f.hdr
    requires !g.hdr.typeB ==> !g.hdr.command
    ensures GoesOn(f, g, base, f.tx, [], []) && Submitted(g) == Submitted(f)
  {
    forall i | 0 <= i < |g.sent| ensures ItemAt(g.sent[i], base, g.log, Acked(g) + i) {
      assert ItemAt(f.sent[i], base, f.log, Acked(f) + i);
    }
    assert f.tx + [] == f.tx;
  }

  lemma DirectiveKeepsSession(f: FopVars, base: Counter, d: Directive)
      returns (kept: seq<Frame>, added: seq<Frame>, idx: seq<nat>)
    requires (Running(f, base) || Paused(f, base)) && Disciplined(f, Directed(d))
    ensures Outcomes(f, OnDirective(f, d), base, kept, added, idx)
    ensures OnDirective(f, d).wnd == (if d.SetWindow? then d.newWnd else f.wnd)
    ensures Over(OnDirective(f, d)) ||
            (Acked(OnDirective(f, d)) == Acked(f) && Submitted(OnDirective(f, d)) == Submitted(f))
  {
    kept, added, idx := f.tx, [], [];
    OutstandingIsSent(f, base);
    var g := OnDirective(f, d);
    if !(d.TerminateAd? && f.state != Init) {
      ChangeKeepsWindow(f, g, base);
    }
  }

  lemma AnswerKeepsSession(f: FopVars, base: Counter, r: Response)
      returns (kept: seq<Frame>, added: seq<Frame>, idx: seq<nat>)
    requires (Running(f, base) || Paused(f, base)) && Disciplined(f, Answered(r))
    ensures Outcomes(f, OnResponse(f, r), base, kept, added, idx)
    ensures OnResponse(f, r).wnd == f.wnd
    ensures Over(OnResponse(f, r)) ||
            (Acked(OnResponse(f, r)) == Acked(f) && Submitted(OnResponse(f, r)) == Submitted(f))
  {
    hide LookForFdu;
    kept, added, idx := f.tx, [], [];
    if r == AdAccept && (f.state == Active || f.state == RtNoWait) {
      idx := LookAdvances(f, base);
      AdvancesGoesOn(f, LookForFdu(f).0, base, f.tx, idx);
      added := Frames(base, LookForFdu(f).0.log, idx);
    } else if r in {AdAccept, BcAccept, BdAccept} {
      ChangeKeepsWindow(f, f, base);
    }
  }

  lemma RequestKeepsSession(f: FopVars, base: Counter)
      returns (kept: seq<Frame>, added: seq<Frame>, idx: seq<nat>)
    requires Running(f, base) || Paused(f, base)
    ensures Outcomes(f, OnRequest(f).0, base, kept, added, idx)
    ensures OnRequest(f).0.wnd == f.wnd && Acked(OnRequest(f).0) == Acked(f)
    ensures Submitted(OnRequest(f).0) == Submitted(f) + HandedOver(f, Requested)
  {
    kept, added, idx := f.tx, [], [];
    if Open(f.state) {
      added, idx := RequestKeepsWindow(f, base);
    } else {
      ChangeKeepsWindow(f, f, base);
      if f.hdr.typeB && !f.hdr.command && |f.tx| < f.txCap {
        added, idx := [Pack(f, f.data)], [0];
        var g := OnRequest(f).0;
        forall i | 0 <= i < |g.sent| ensures ItemAt(g.sent[i], base, g.log, Acked(g) + i) {
          assert ItemAt(f.sent[i], base, f.log, Acked(f) + i);
        }
      }
    }
  }

  /** Every event keeps the window of a session, running or suspended, or ends the session with the
      queues purged; the frames it adds to the uplink are outstanding frames of the session. */
  lemma EventKeepsSession(f: FopVars, base: Counter, ev: FopEvent)
      returns (kept: seq<Frame>, added: seq<Frame>, idx: seq<nat>)
    requires (Running(f, base) || Paused(f, base)) && Disciplined(f, ev) && !ev.Drained?
    ensures Outcomes(f, FopStep(f, ev), base, kept, added, idx)
    ensures FopStep(f, ev).wnd == (if ev.Directed? && ev.directive.SetWindow? then ev.directive.newWnd else f.wnd)
    ensures var g := FopStep(f, ev);
            || Over(g) || Acked(g) == Acked(f)
            || (ev.ClcwArrives? && Open(f.state) && Acked(g) == Acked(f) + Distance(ev.clcw.nr, f.nnr))
    ensures Over(FopStep(f, ev)) || Submitted(FopStep(f, ev)) == Submitted(f) + HandedOver(f, ev)
  {
    hide OnClcw, OnTimer, OnRequest, OnDirective, OnResponse, Outcome;
    kept, added, idx := f.tx, [], [];
    var i: seq<nat>;
    match ev {
      case Requested => kept, added, idx := RequestKeepsSession(f, base);
      case Directed(d) => kept, added, idx := DirectiveKeepsSession(f, base, d);
      case Answered(r) => kept, added, idx := AnswerKeepsSession(f, base, r);
      case Prepared(hdr, data) => ChangeKeepsWindow(f, Prepare(f, hdr, data), base);
      case ClcwArrives(c) =>
        if Open(f.state) {
          kept, i := ClcwKeepsWindow(f, base, c);
          kept, added, idx := OutcomeOfAction(f, OnClcw(f, c), base, kept, i);
        } else {
          InitIgnores(f, c);
          ChangeKeepsWindow(f, f, base);
        }
      case TimerExpires =>
        if Open(f.state) {
          kept, i := TimerKeepsWindow(f, base);
          kept, added, idx := OutcomeOfAction(f, OnTimer(f), base, kept, i);
        } else {
          InitIgnores(f, Clcw(false, false, false, 0));
          ChangeKeepsWindow(f, f, base);
        }
    }
  }

  lemma InitIgnores(f: FopVars, c: Clcw)
    requires f.state == Init
    ensures OnClcw(f, c) == f && OnTimer(f) == f
  {
    hide ClcwEvent, TimerEvent, RemoveAcked, LookForFdu, RetryAd, RetryBc, LookForDirective;
  }

  /** After the end of a session the sender transmits nothing but type-B frames. */
  lemma EventAfterSession(f: FopVars, ev: FopEvent) returns (added: seq<Frame>)
    requires Over(f) && Disciplined(f, ev) && !ev.Drained?
    ensures var g := FopStep(f, ev);
            && Over(g) && g.log == f.log && g.tx == f.tx + added
            && forall i :: 0 <= i < |added| ==> added[i].hdr.typeB && !added[i].hdr.command
    ensures HandedOver(f, ev) == []
  {
    hide OnClcw, OnTimer;
    InitIgnores(f, if ev.ClcwArrives? then ev.clcw else Clcw(false, false, false, 0));
    added := FopStep(f, ev).tx[|f.tx|..];
  }
}
