/** What reaches the uplink: all the outstanding frames again after a retransmission starts, and the data
    of the expedited service. */
module FopUplink {
  import opened Octets
  import opened CopTypes
  import opened FopTable
  import W = FopWindow
  import L = FopLimits

  function TakenBy(f: FopVars, ev: FopEvent): seq<Frame> {
    if ev.Drained? && ev.position < |f.tx| then [f.tx[ev.position]] else []
  }

  /** The frames the lower layer takes in a run. */
  function Taken(f: FopVars, evs: seq<FopEvent>): seq<Frame>
    decreases |evs|
  {
    if evs == [] then [] else TakenBy(f, evs[0]) + Taken(FopStep(f, evs[0]), evs[1..])
  }

  lemma {:induction false} RunAppend(f: FopVars, a: seq<FopEvent>, b: seq<FopEvent>)
    ensures L.Run(f, a + b) == L.Run(L.Run(f, a), b)
    ensures Taken(f, a + b) == Taken(f, a) + Taken(L.Run(f, a), b)
    decreases |a|
  {
    hide FopStep;
    if a == [] {
      assert a + b == b;
    } else {
      assert (a + b)[0] == a[0] && (a + b)[1..] == a[1..] + b;
      RunAppend(FopStep(f, a[0]), a[1..], b);
    }
  }

  // ---------------------------------------------------------------------------------------
  // Go back N
  // ---------------------------------------------------------------------------------------

  /** The items from the k-th on are marked for retransmission, and those before it are not. */
  function WithMarks(sent: seq<Item>, k: nat): (r: seq<Item>)
    ensures |r| == |sent|
    ensures forall i :: 0 <= i < |sent| ==> r[i] == sent[i].(rt := i >= k)
  {
    seq(|sent|, i requires 0 <= i < |sent| => sent[i].(rt := i >= k))
  }

  lemma MarksInWindow(f: FopVars, base: Counter, k: nat)
    requires W.Window(f, base)
    ensures W.Window(f.(sent := WithMarks(f.sent, k)), base)
  {
    var g := f.(sent := WithMarks(f.sent, k));
    forall i | 0 <= i < |g.sent| ensures W.ItemAt(g.sent[i], base, g.log, W.Acked(g) + i) {
      assert W.ItemAt(f.sent[i], base, f.log, W.Acked(f) + i);
    }
  }

  lemma RetryMarksAll(f: FopVars, base: Counter)
    requires W.Window(f, base)
    ensures RetryAd(f) == f.(tx := [], txCnt := Next(f.txCnt), sent := WithMarks(f.sent, 0))
  {
    forall i | 0 <= i < |f.sent| ensures MarkAll(f.sent)[i] == WithMarks(f.sent, 0)[i] {
      assert W.ItemAt(f.sent[i], base, f.log, W.Acked(f) + i);
    }
  }

  /** With the first k frames sent again, the next one is sent. */
  lemma ResendNext(f: FopVars, base: Counter, k: nat)
    requires W.Window(f, base) && k < |f.sent| && |f.tx| < f.txCap
    ensures var g := f.(sent := WithMarks(f.sent, k));
            Resend(g) == (f.(sent := WithMarks(f.sent, k + 1), tx := f.tx + [W.FrameAt(base, f.log, W.Acked(f) + k)]),
                          true)
  {
    hide FirstMarked, ResetRt;
    var g := f.(sent := WithMarks(f.sent, k));
    MarksInWindow(f, base, k);
    assert W.ItemAt(g.sent[k], base, g.log, W.Acked(g) + k);
    FirstOfMarked(f.sent, k);
    W.ResetHitsItem(g, base, k);
    assert WithMarks(f.sent, k)[k := g.sent[k].(rt := false)] == WithMarks(f.sent, k + 1);
  }

  lemma FirstOfMarked(sent: seq<Item>, k: nat)
    requires k < |sent| && !sent[k].typeB
    ensures FirstMarked(WithMarks(sent, k)) == k
  {
    hide FirstMarked;
    var r := WithMarks(sent, k);
    var i := FirstMarked(r);
    assert r[k].rt && !r[k].typeB && (i < |r| ==> i >= k);
  }

  lemma NoneMarked(sent: seq<Item>)
    ensures FirstMarked(WithMarks(sent, |sent|)) == |sent|
  {
    hide FirstMarked;
  }

  /** The same when the lower layer has accepted a frame and nothing waits. */
  lemma AcceptSendsNext(f: FopVars, base: Counter, k: nat)
    requires W.Window(f, base) && k < |f.sent| && |f.tx| < f.txCap && f.wait == []
    requires f.state == Active || f.state == RtNoWait
    ensures FopStep(f.(sent := WithMarks(f.sent, k)), Answered(AdAccept))
         == f.(sent := WithMarks(f.sent, k + 1), tx := f.tx + [W.FrameAt(base, f.log, W.Acked(f) + k)])
  {
    ResendNext(f, base, k);
    hide Resend, OnClcw, OnTimer, OnRequest, OnDirective;
  }

  /** A retransmission starts with the oldest outstanding frame; if nothing waits, with that one alone. */
  lemma RetrySendsFirst(f: FopVars, base: Counter)
    requires W.Window(f, base) && f.sent != [] && 0 < f.txCap
    ensures var g := LookForFdu(RetryAd(f)).0;
            && g.tx != [] && g.tx[0] == W.FrameAt(base, f.log, W.Acked(f))
            && (f.wait == [] ==> g == f.(txCnt := Next(f.txCnt), sent := WithMarks(f.sent, 1), tx := g.tx[..1]))
  {
    hide Resend, WindowTaken, RetryAd, W.Window, WithMarks, Next;
    RetryMarksAll(f, base);
    W.UplinkInWindow(f, base, []);
    ResendNext(f.(tx := []), base, 0);
    CountInWindow(f.(tx := [], sent := WithMarks(f.sent, 0)), Next(f.txCnt));
    assert [] + [W.FrameAt(base, f.log, W.Acked(f))] == [W.FrameAt(base, f.log, W.Acked(f))];
  }

  lemma CountInWindow(f: FopVars, n: Counter)
    ensures var g := Resend(f.(txCnt := n)); g == (Resend(f).0.(txCnt := n), Resend(f).1)
  {
    hide FirstMarked, ResetRt;
  }

  /** One expiry of the timer; then the lower layer takes and accepts one frame after the other. */
  function Replay(n: nat): seq<FopEvent> {
    if n <= 1 then [TimerExpires] else Replay(n - 1) + [Drained(0), Answered(AdAccept)]
  }

  /** The frames from the oldest outstanding one on. */
  ghost function OutstandingFrames(f: FopVars, base: Counter, n: nat): (r: seq<Frame>)
    requires W.Window(f, base) && n <= |f.sent|
    ensures |r| == n
    ensures forall i :: 0 <= i < n ==> r[i] == W.FrameAt(base, f.log, W.Acked(f) + i)
  {
    seq(n, i requires 0 <= i < n => W.FrameAt(base, f.log, W.Acked(f) + i))
  }

  /** The first n frames have been sent again, the last of them is still with the sender. */
  ghost function Replayed(f: FopVars, base: Counter, n: nat): FopVars
    requires W.Window(f, base) && 0 < n <= |f.sent|
  {
    f.(txCnt := Next(f.txCnt), sent := WithMarks(f.sent, n), tx := [W.FrameAt(base, f.log, W.Acked(f) + n - 1)])
  }

  lemma ReplayStarts(f: FopVars, base: Counter)
    requires W.Window(f, base) && (f.state == Active || f.state == RtNoWait) && f.sent != [] && f.wait == []
    requires f.timeoutType <= 1 && f.txCnt < f.txLim && 0 < f.txCap
    ensures FopStep(f, TimerExpires) == Replayed(f, base, 1)
  {
    RetrySendsFirst(f, base);
    TimerRetries(f);
    hide OnTimer, OnClcw, OnRequest, OnDirective, OnResponse, LookForFdu, RetryAd, W.Window;
    var g := LookForFdu(RetryAd(f)).0;
    assert g.tx[..1] == [g.tx[0]];
  }

  lemma TimerRetries(f: FopVars)
    requires (f.state == Active || f.state == RtNoWait) && f.timeoutType <= 1 && f.txCnt < f.txLim
    ensures OnTimer(f) == LookForFdu(RetryAd(f)).0.(state := f.state)
  {
    hide LookForFdu, RetryAd, RemoveAcked, RetryBc, LookForDirective;
  }

  lemma ReplayGoesOn(f: FopVars, base: Counter, n: nat)
    requires W.Window(f, base) && (f.state == Active || f.state == RtNoWait) && f.wait == [] && 0 < f.txCap
    requires 0 < n < |f.sent|
    ensures var g := FopStep(Replayed(f, base, n), Drained(0));
            && g == Replayed(f, base, n).(tx := []) && FopStep(g, Answered(AdAccept)) == Replayed(f, base, n + 1)
  {
    hide FopStep, W.Window, WithMarks, Next;
    var h := f.(txCnt := Next(f.txCnt), tx := []);
    CountedInWindow(f, base, h);
    AcceptSendsNext(h, base, n);
    OnlyOneDrained(Replayed(f, base, n));
    assert [] + [W.FrameAt(base, f.log, W.Acked(f) + n)] == [W.FrameAt(base, f.log, W.Acked(f) + n)];
  }

  lemma OnlyOneDrained(f: FopVars)
    requires |f.tx| == 1
    ensures FopStep(f, Drained(0)) == f.(tx := [])
  {
    hide OnClcw, OnTimer, OnRequest, OnDirective, OnResponse;
    assert f.tx[..0] + f.tx[1..] == [];
  }

  lemma CountedInWindow(f: FopVars, base: Counter, h: FopVars)
    requires W.Window(f, base) && h == f.(txCnt := h.txCnt, tx := h.tx)
    ensures W.Window(h, base)
  {
    forall i | 0 <= i < |h.sent| ensures W.ItemAt(h.sent[i], base, h.log, W.Acked(h) + i) {
      assert W.ItemAt(f.sent[i], base, f.log, W.Acked(f) + i);
    }
  }

  lemma {:induction false} ReplayRuns(f: FopVars, base: Counter, n: nat)
    requires W.Window(f, base) && (f.state == Active || f.state == RtNoWait) && f.wait == []
    requires f.timeoutType <= 1 && f.txCnt < f.txLim && 0 < f.txCap
    requires 0 < n <= |f.sent|
    ensures L.Run(f, Replay(n)) == Replayed(f, base, n)
    ensures Taken(f, Replay(n)) == OutstandingFrames(f, base, n - 1)
    decreases n
  {
    hide FopStep, W.Window, W.FrameAt, Taken, L.Run, TakenBy;
    if n == 1 {
      ReplayStarts(f, base);
      OneEvent(f, TimerExpires);
    } else {
      var g := Replayed(f, base, n - 1);
      ReplayRuns(f, base, n - 1);
      ReplayGoesOn(f, base, n - 1);
      TwoEvents(g, Drained(0), Answered(AdAccept));
      RunAppend(f, Replay(n - 1), [Drained(0), Answered(AdAccept)]);
      assert OutstandingFrames(f, base, n - 1) == OutstandingFrames(f, base, n - 2) + g.tx;
    }
  }

  lemma OneEvent(f: FopVars, ev: FopEvent)
    ensures L.Run(f, [ev]) == FopStep(f, ev) && (!ev.Drained? ==> Taken(f, [ev]) == [])
  {
    hide FopStep;
  }

  lemma TwoEvents(f: FopVars, ev: FopEvent, next: FopEvent)
    requires ev == Drained(0) && |f.tx| == 1 && !next.Drained?
    ensures L.Run(f, [ev, next]) == FopStep(FopStep(f, ev), next) && Taken(f, [ev, next]) == f.tx
  {
    hide FopStep;
    OneEvent(FopStep(f, ev), next);
    assert [ev, next][1..] == [next];
    assert [f.tx[0]] + [] == f.tx;
  }

  /** A timeout sends every outstanding frame again, in order: with nothing waiting, one expiry and then
      the frames taken and accepted one by one put exactly the outstanding frames on the uplink, from
      the oldest to the newest, and leave no mark. */
  lemma AllSentAgain(f: FopVars, base: Counter)
    requires W.Window(f, base) && (f.state == Active || f.state == RtNoWait) && f.wait == [] && f.sent != []
    requires f.timeoutType <= 1 && f.txCnt < f.txLim && 0 < f.txCap
    ensures var evs := Replay(|f.sent|);
            var g := L.Run(f, evs);
            && Taken(f, evs) + g.tx == OutstandingFrames(f, base, |f.sent|)
            && (forall i :: 0 <= i < |g.sent| ==> !g.sent[i].rt)
            && g == f.(txCnt := f.txCnt + 1, sent := g.sent, tx := g.tx) && W.Window(g, base)
  {
    hide W.Window, L.Run, Taken, W.FrameAt, Replay, W.Number;
    var n := |f.sent|;
    ReplayRuns(f, base, n);
    MarksInWindow(f, base, n);
    CountedInWindow(f.(sent := WithMarks(f.sent, n)), base, Replayed(f, base, n));
    assert OutstandingFrames(f, base, n) == OutstandingFrames(f, base, n - 1) + Replayed(f, base, n).tx;
  }

  // ---------------------------------------------------------------------------------------
  // The expedited service
  // ---------------------------------------------------------------------------------------

  predicate IsBd(frame: Frame) {
    frame.hdr.typeB && !frame.hdr.command
  }

  predicate NoBd(frames: seq<Frame>) {
    forall i :: 0 <= i < |frames| ==> !IsBd(frames[i])
  }

  /** The type-B data frames of a list, in order. */
  function Bd(frames: seq<Frame>): seq<Frame> {
    if frames == [] then []
    else (if IsBd(frames[0]) then [frames[0]] else []) + Bd(frames[1..])
  }

  lemma {:induction false} BdAppend(a: seq<Frame>, b: seq<Frame>)
    ensures Bd(a + b) == Bd(a) + Bd(b)
  {
    if a == [] {
      assert a + b == b;
    } else {
      assert (a + b)[0] == a[0] && (a + b)[1..] == a[1..] + b;
      BdAppend(a[1..], b);
      var first := if IsBd(a[0]) then [a[0]] else [];
      assert first + (Bd(a[1..]) + Bd(b)) == first + Bd(a[1..]) + Bd(b);
    }
  }

  lemma {:induction false} NoBdIsNone(frames: seq<Frame>)
    requires NoBd(frames)
    ensures Bd(frames) == []
  {
    if frames != [] {
      assert NoBd(frames[1..]);
      NoBdIsNone(frames[1..]);
    }
  }

  /** No item of the sent queue is type-B data, and the header of a request that waits is a type-A one. */
  predicate Separate(f: FopVars) {
    && (forall i :: 0 <= i < |f.sent| ==> !IsBd(f.sent[i].frame))
    && (f.wait != [] ==> !f.hdr.typeB)
  }

  /** The header is left alone while a request waits. */
  predicate LeavesHeader(f: FopVars, ev: FopEvent) {
    ev.Prepared? ==> f.wait == []
  }

  /** What joins the queue towards the uplink; a retransmission drops what was there before. */
  function Joined(f: FopVars, ev: FopEvent): seq<Frame> {
    var tx := FopStep(f, ev).tx;
    if ev.Drained? then []
    else if f.tx <= tx then tx[|f.tx|..] else tx
  }

  /** The frame of an accepted type-B data request, with the header and the data prepared. */
  function Expedited(f: FopVars, ev: FopEvent): seq<Frame> {
    if ev.Requested? && f.hdr.typeB && !f.hdr.command && OnRequest(f).1 == Accepted
    then [Frame(f.hdr, 0, f.data)] else []
  }

  function AllJoined(f: FopVars, evs: seq<FopEvent>): seq<Frame>
    decreases |evs|
  {
    if evs == [] then [] else Joined(f, evs[0]) + AllJoined(FopStep(f, evs[0]), evs[1..])
  }

  function AllExpedited(f: FopVars, evs: seq<FopEvent>): seq<Frame>
    decreases |evs|
  {
    if evs == [] then [] else Expedited(f, evs[0]) + AllExpedited(FopStep(f, evs[0]), evs[1..])
  }

  predicate LeaveHeader(f: FopVars, evs: seq<FopEvent>)
    decreases |evs|
  {
    evs == [] || (LeavesHeader(f, evs[0]) && LeaveHeader(FopStep(f, evs[0]), evs[1..]))
  }

  /** What is added to the uplink queue, or replaces it, is not type-B data. */
  predicate AddsNoBd(f: FopVars, g: FopVars) {
    Separate(g) && ((f.tx <= g.tx && NoBd(g.tx[|f.tx|..])) || NoBd(g.tx))
  }

  lemma ResendAddsNoBd(f: FopVars)
    requires Separate(f)
    ensures var g := Resend(f).0;
            && Separate(g) && f.tx <= g.tx && NoBd(g.tx[|f.tx|..]) && g.hdr == f.hdr && g.wait == f.wait
  {
    hide FirstMarked, Leading;
  }

  lemma TransmitAddsNoBd(f: FopVars)
    requires Separate(f) && f.wait != []
    ensures var g := TransmitAd(f).0;
            Separate(g) && f.tx <= g.tx && NoBd(g.tx[|f.tx|..])
  {
  }

  lemma LookAddsNoBd(f: FopVars)
    requires Separate(f)
    ensures var g := LookForFdu(f).0;
            Separate(g) && f.tx <= g.tx && NoBd(g.tx[|f.tx|..])
  {
    hide Resend, TransmitAd, WindowTaken, Separate;
    ResendAddsNoBd(f);
    var g := Resend(f).0;
    if g.wait != [] {
      TransmitAddsNoBd(g);
      var h := TransmitAd(g).0;
      assert h.tx[|f.tx|..] == g.tx[|f.tx|..] + h.tx[|g.tx|..];
    }
  }

  lemma PreparationsAddNoBd(f: FopVars, nr: Counter)
    requires Separate(f)
    ensures Separate(RemoveAcked(f, nr)) && RemoveAcked(f, nr).tx == f.tx
    ensures Separate(RetryAd(f)) && RetryAd(f).tx == [] && Separate(RetryBc(f)) && RetryBc(f).tx == []
  {
    hide Leading;
  }

  lemma DirectiveLookAddsNoBd(f: FopVars)
    requires Separate(f)
    ensures var g := LookForDirective(f);
            Separate(g) && f.tx <= g.tx && NoBd(g.tx[|f.tx|..])
  {
    hide Leading;
  }

  lemma PerformAddsNoBd(f: FopVars, a: Action, nr: Counter)
    requires Separate(f)
    ensures AddsNoBd(f, Perform(f, a, nr))
  {
    hide RemoveAcked, LookForFdu, RetryAd, RetryBc, LookForDirective;
    PreparationsAddNoBd(f, nr);
    PreparationsAddNoBd(RemoveAcked(f, nr), nr);
    LookAddsNoBd(RemoveAcked(f, nr));
    LookAddsNoBd(RetryAd(RemoveAcked(f, nr)));
    LookAddsNoBd(RetryAd(f));
    DirectiveLookAddsNoBd(RetryBc(f));
  }

  lemma CommandAddsNoBd(f: FopVars, data: seq<byte>)
    requires f.sent == [] && f.wait == []
    ensures AddsNoBd(f, WithBc(f, data))
  {
  }

  lemma DirectiveAddsNoBd(f: FopVars, d: Directive)
    requires Separate(f)
    ensures AddsNoBd(f, OnDirective(f, d))
  {
    hide WithBc, CommandHeader;
    CommandAddsNoBd(Initialized(f), [UNLOCK_CMD]);
    if d.InitiateWithSetVr? {
      CommandAddsNoBd(Initialized(f).(vs := d.newVr, nnr := d.newVr), [SETVR_BYTE1, SETVR_BYTE2, d.newVr as byte]);
    }
  }

  lemma ResponseAddsNoBd(f: FopVars, r: Response)
    requires Separate(f)
    ensures AddsNoBd(f, OnResponse(f, r))
  {
    hide LookForFdu, LookForDirective;
    LookAddsNoBd(f);
    DirectiveLookAddsNoBd(f);
  }

  /** A request of the expedited service is accepted exactly if there is room, and then its frame is the
      last of the queue; a type-A request adds none. */
  lemma RequestAddsItsFrame(f: FopVars)
    requires Separate(f)
    ensures var (g, notice) := OnRequest(f);
            && Separate(g) && f.tx <= g.tx
            && Bd(g.tx[|f.tx|..]) == Expedited(f, Requested)
            && (f.hdr.typeB && !f.hdr.command ==>
                  (notice == Accepted <==> |f.tx| < f.txCap) && (notice == Rejected <==> |f.tx| >= f.txCap))
  {
    hide LookForFdu;
    var g := OnRequest(f).0;
    if !f.hdr.typeB {
      LookAddsNoBd(f.(wait := [Request(f.hdr, f.data)]));
      NoBdIsNone(g.tx[|f.tx|..]);
    } else if !f.hdr.command && |f.tx| < f.txCap {
      assert g.tx[|f.tx|..] == [Frame(f.hdr, 0, f.data)];
      assert Bd([Frame(f.hdr, 0, f.data)]) == [Frame(f.hdr, 0, f.data)];
    }
  }

  lemma JoinedIsExpedited(f: FopVars, ev: FopEvent)
    requires Separate(f) && LeavesHeader(f, ev)
    ensures Separate(FopStep(f, ev)) && Bd(Joined(f, ev)) == Expedited(f, ev)
  {
    hide Perform, Reaction, ClcwEvent, TimerEvent, OnDirective, OnResponse, OnRequest, Bd;
    match ev {
      case Requested => RequestAddsItsFrame(f);
      case ClcwArrives(c) => PerformAddsNoBd(f, Reaction(ClcwEvent(f, c), f.state), c.nr);
      case TimerExpires => PerformAddsNoBd(f, Reaction(TimerEvent(f), f.state), 0);
      case Directed(d) => DirectiveAddsNoBd(f, d);
      case Answered(r) => ResponseAddsNoBd(f, r);
      case _ =>
    }
    if !ev.Requested? {
      NoBdIsNone(Joined(f, ev));
    }
  }

  /** Over every run in any state the type-B data that joins the uplink queue is, in order, exactly that of
      the type-B requests that were answered ACCEPT_TX, with the headers and the data prepared for them. */
  lemma {:induction false} ExpeditedJoins(f: FopVars, evs: seq<FopEvent>)
    requires Separate(f) && LeaveHeader(f, evs)
    ensures Bd(AllJoined(f, evs)) == AllExpedited(f, evs)
    ensures Separate(L.Run(f, evs))
    decreases |evs|
  {
    hide FopStep, Separate, Joined, Expedited, LeavesHeader;
    if evs != [] {
      JoinedIsExpedited(f, evs[0]);
      ExpeditedJoins(FopStep(f, evs[0]), evs[1..]);
      BdAppend(Joined(f, evs[0]), AllJoined(FopStep(f, evs[0]), evs[1..]));
    }
  }

  /** No retransmission drops what waits for the uplink, and the lower layer takes the frames in order. */
  predicate KeepsQueue(f: FopVars, evs: seq<FopEvent>)
    decreases |evs|
  {
    evs == [] ||
    (&& (if evs[0].Drained? then evs[0].position == 0 else f.tx <= FopStep(f, evs[0]).tx)
     && KeepsQueue(FopStep(f, evs[0]), evs[1..]))
  }

  lemma {:induction false} TakenInOrder(f: FopVars, evs: seq<FopEvent>)
    requires KeepsQueue(f, evs)
    ensures Taken(f, evs) + L.Run(f, evs).tx == f.tx + AllJoined(f, evs)
    decreases |evs|
  {
    hide FopStep;
    if evs == [] {
      assert [] + f.tx == f.tx + [];
    } else {
      var g := FopStep(f, evs[0]);
      TakenInOrder(g, evs[1..]);
      TakesOrJoins(f, evs[0]);
      hide TakenBy, Joined, KeepsQueue;
      Regroup(TakenBy(f, evs[0]), g.tx, f.tx, Joined(f, evs[0]), Taken(g, evs[1..]), L.Run(g, evs[1..]).tx,
              AllJoined(g, evs[1..]));
    }
  }

  lemma Regroup<T>(taken: seq<T>, mid: seq<T>, start: seq<T>, joined: seq<T>, later: seq<T>, end: seq<T>, rest: seq<T>)
    requires taken + mid == start + joined && later + end == mid + rest
    ensures (taken + later) + end == start + (joined + rest)
  {
    assert (taken + later) + end == taken + (later + end);
    assert taken + (mid + rest) == (taken + mid) + rest;
    assert (start + joined) + rest == start + (joined + rest);
  }

  lemma TakesOrJoins(f: FopVars, ev: FopEvent)
    requires if ev.Drained? then ev.position == 0 else f.tx <= FopStep(f, ev).tx
    ensures TakenBy(f, ev) + FopStep(f, ev).tx == f.tx + Joined(f, ev)
  {
    hide OnClcw, OnTimer, OnRequest, OnDirective, OnResponse;
  }

  /** So as long as no retransmission drops it, what the lower layer has taken and what it will take of
      type-B data is what was there before, and then what was accepted since, nothing lost or doubled. */
  lemma ExpeditedIsTaken(f: FopVars, evs: seq<FopEvent>)
    requires Separate(f) && LeaveHeader(f, evs) && KeepsQueue(f, evs)
    ensures Bd(Taken(f, evs)) + Bd(L.Run(f, evs).tx) == Bd(f.tx) + AllExpedited(f, evs)
  {
    hide Bd, Taken, AllJoined, AllExpedited;
    ExpeditedJoins(f, evs);
    TakenInOrder(f, evs);
    BdAppend(Taken(f, evs), L.Run(f, evs).tx);
    BdAppend(f.tx, AllJoined(f, evs));
  }
}
