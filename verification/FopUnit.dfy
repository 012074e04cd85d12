/** FOP-1 as it is programmed (src/osdlp_cop.c): one record and its queues updated in place, with
    one procedure per event. Every procedure is proved to take the step FopTable.dfy lists. */
module FopUnit {
  import opened Octets
  import opened CopTypes
  import opened FopTable
  import opened FopNotices

  class Fop {
    var state: FopState
    var vs: Counter
    var nnr: Counter
    var txCnt: Counter
    var txLim: Counter
    var wnd: Counter
    var timeoutType: Counter
    var ss: nat
    var hdr: Header
    var data: seq<byte>
    var sent: seq<Item>
    var sentCap: nat
    var wait: seq<Request>
    var tx: seq<Frame>
    var txCap: nat
    var signal: Notification
    ghost var log: seq<Segment>

    ghost function Vars(): FopVars
      reads this
    {
      FopVars(state, vs, nnr, txCnt, txLim, wnd, timeoutType, ss, hdr, data, sent, sentCap, wait, tx, txCap, log)
    }

    /** `osdlp_prepare_fop`, with queues of the given capacities. */
    constructor (slideWnd: Counter, initial: FopState, timeout: Counter, limit: Counter, hdr0: Header,
                 sentCapacity: nat, txCapacity: nat)
      ensures Vars() == FopVars(initial, 0, 0, 0, limit, slideWnd, timeout, 0, hdr0, [],
                                [], sentCapacity, [], [], txCapacity, [])
    {
      nnr, wnd, ss, state, timeoutType := 0, slideWnd, 0, initial, timeout;
      txCnt, txLim, vs := 0, limit, 0;
      hdr, data := hdr0, [];
      sent, sentCap, wait, tx, txCap := [], sentCapacity, [], [], txCapacity;
      log := [];
    }

    // -------------------------------------------------------------------------------------
    // Queue operations
    // -------------------------------------------------------------------------------------

    method TxEnqueue(frame: Frame) returns (ok: bool)
      modifies this`tx
      ensures (Vars(), ok) == ToUplink(old(Vars()), frame)
    {
      ok := |tx| < txCap;
      if ok { tx := tx + [frame]; }
    }

    method SentEnqueue(item: Item) returns (ok: bool)
      modifies this`sent
      ensures ok == (|old(sent)| < sentCap)
      ensures Vars() == if ok then old(Vars()).(sent := old(sent) + [item]) else old(Vars())
    {
      ok := |sent| < sentCap;
      if ok { sent := sent + [item]; }
    }

    method MarkAdAsRt()
      modifies this`sent
      ensures Vars() == old(Vars()).(sent := MarkAll(old(sent)))
    {
      for i := 0 to |sent|
        invariant |sent| == |old(sent)|
        invariant forall j :: 0 <= j < i ==> sent[j] == Marked(old(sent)[j])
        invariant forall j :: i <= j < |sent| ==> sent[j] == old(sent)[j]
      {
        if !sent[i].typeB {
          sent := sent[i := sent[i].(rt := true)];
        }
      }
      assert sent == MarkAll(old(sent));
    }

    method FirstAdRtFrame() returns (found: bool, item: Item)
      ensures found == (FirstMarked(sent) < |sent|)
      ensures found ==> item == sent[FirstMarked(sent)]
    {
      item := Item(Frame(hdr, 0, []), false, 0, false);
      found := false;
      for i := 0 to |sent|
        invariant forall j :: 0 <= j < i ==> !(sent[j].rt && !sent[j].typeB)
      {
        if !sent[i].typeB && sent[i].rt {
          return true, sent[i];
        }
      }
    }

    method ResetRtFrame(seqNum: Counter)
      modifies this`sent
      ensures Vars() == old(Vars()).(sent := ResetRt(old(sent), seqNum))
    {
      for i := 0 to |sent|
        invariant sent == old(sent)
        invariant forall j :: 0 <= j < i ==> sent[j].seqNum != seqNum
      {
        if sent[i].seqNum == seqNum {
          sent := sent[i := sent[i].(rt := false)];
          return;
        }
      }
    }

    method Purge()
      modifies this`wait, this`sent
      ensures Vars() == Purged(old(Vars()))
    {
      wait := [];
      sent := [];
    }

    // -------------------------------------------------------------------------------------
    // The actions the events are made of
    // -------------------------------------------------------------------------------------

    /** Drops acknowledged frames from the head of the sent queue, guarded by a counter. */
    method RemoveAckedFrames(nr: Counter) returns (tripped: bool)
      modifies this`sent, this`nnr, this`txCnt
      ensures Vars() == RemoveAcked(old(Vars()), nr)
      ensures tripped == (Leading(old(sent), nr) > wnd)
    {
      hide Leading, RemoveAcked;
      var counter := 0;
      ghost var f, k := Vars(), Leading(sent, nr);
      while sent != [] && sent[0].seqNum != nr
        invariant 0 <= counter <= wnd == f.wnd && counter <= k <= |f.sent|
        invariant Vars() == WithoutFirst(f, counter, nr)
        decreases |sent|
      {
        assert sent[0] == f.sent[counter];
        sent := sent[1..];
        nnr := nr;
        txCnt := 1;
        counter := counter + 1;
        assert Vars() == WithoutFirst(f, counter, nr);
        if counter > wnd {
          RemovesLeading(f, nr, counter);
          return true;
        }
      }
      assert counter < |f.sent| ==> sent[0] == f.sent[counter];
      RemovesLeading(f, nr, counter);
      tripped := false;
    }

    method TransmitTypeAd() returns (ok: bool)
      requires wait != []
      modifies this`wait, this`txCnt, this`sent, this`vs, this`log, this`tx
      ensures (Vars(), ok) == TransmitAd(old(Vars()))
    {
      hide ToUplink, Payload;
      ghost var f := Vars();
      var item := wait[0];
      wait := wait[1..];
      var frame := Frame(hdr, if hdr.typeB then 0 else vs, item.data);
      if sent == [] {
        txCnt := 1;
      }
      ghost var g := f.(wait := f.wait[1..], txCnt := if f.sent == [] then 1 else f.txCnt);
      assert Vars() == g;
      ok := SentEnqueue(Item(frame, false, vs, false));
      assert Vars() == if ok then g.(sent := f.sent + [Item(frame, false, f.vs, false)]) else g;
      vs := (vs + 1) % 256;
      log := log + [Payload(frame)];
      g := g.(vs := Next(f.vs), log := f.log + [Payload(frame)]);
      assert Vars() == if ok then g.(sent := f.sent + [Item(frame, false, f.vs, false)]) else g;
      if ok {
        ok := TxEnqueue(frame);
      }
    }

    method TransmitTypeBc() returns (ok: bool)
      modifies this`txCnt, this`sent, this`tx
      ensures (Vars(), ok) == TransmitBc(old(Vars()))
    {
      var frame := Frame(hdr, if hdr.typeB then 0 else vs, data);
      txCnt := 1;
      ok := SentEnqueue(Item(frame, false, vs, true));
      if ok {
        ok := TxEnqueue(frame);
      }
    }

    predicate ConditionInWindow()
      reads this
    {
      vs >= nnr || vs < (nnr + wnd) % 256
    }

    /** Sends the first frame marked for retransmission again. */
    method ResendMarked() returns (ok: bool)
      modifies this`sent, this`tx, this`signal
      ensures (Vars(), ok) == Resend(old(Vars())) && signal == if ok then old(signal) else UndefError
    {
      hide ToUplink, ResetRt;
      ok := true;
      if sent != [] {
        var found, item := FirstAdRtFrame();
        if found {
          ResetRtFrame(item.seqNum);
          ok := TxEnqueue(item.frame);
          if !ok {
            signal := UndefError;
          }
        }
      }
    }

    /** Sends the request that waits, if the window is open. */
    method SendWaiting() returns (notice: Notice)
      requires wait != []
      modifies this
      ensures WindowTaken(old(vs), old(nnr), old(wnd)) ==>
                Vars() == TransmitAd(old(Vars())).0
                && notice == if TransmitAd(old(Vars())).1 then Accepted else Undefined
      ensures !WindowTaken(old(vs), old(nnr), old(wnd)) ==> Vars() == old(Vars()) && notice == Delayed
      ensures signal == Looked(notice, old(signal)).signal
    {
      hide TransmitAd, WindowTaken;
      WindowTestOnCircle(vs, nnr, wnd);
      if nnr + wnd >= 256 {
        if ConditionInWindow() {
          var ok := TransmitTypeAd();
          signal := if ok then AcceptTx else UndefError;
          return if ok then Accepted else Undefined;
        } else {
          signal := DelayResp;
          return Delayed;
        }
      } else {
        if vs < nnr + wnd {
          var ok := TransmitTypeAd();
          signal := if ok then AcceptTx else UndefError;
          return if ok then Accepted else Undefined;
        } else {
          signal := DelayResp;
          return Delayed;
        }
      }
    }

    method LookForAnFdu() returns (notice: Notice)
      modifies this
      ensures (Vars(), notice) == LookForFdu(old(Vars())) && signal == Looked(notice, old(signal)).signal
    {
      hide TransmitAd, Resend, WindowTaken;
      var ok := ResendMarked();
      if !ok {
        return Undefined;
      }
      if wait != [] {
        notice := SendWaiting();
      } else {
        notice := Ignored;
      }
    }

    method LookForADirective() returns (back: Notification)
      modifies this
      ensures Vars() == LookForDirective(old(Vars()))
      ensures Told(back, signal) == DirectiveLooked(old(Vars()), old(signal))
      decreases if sent != [] && sent[0].rt then 1 else 0, 0
    {
      if sent == [] {
        signal := UndefError;
        return UndefError;
      }
      if sent[0].rt && sent[0].typeB {
        var item := sent[0];
        var ok := TxEnqueue(item.frame);
        if !ok {
          back := RejectedByLowerLayer();
        } else {
          ResetRtFrame(item.seqNum);
          back := BcAccepted();
        }
        return;
      }
      back := AcceptDir;
    }

    method InitiateAdRetransmission()
      modifies this`tx, this`txCnt, this`sent
      ensures Vars() == RetryAd(old(Vars()))
    {
      tx := [];
      txCnt := (txCnt + 1) % 256;
      MarkAdAsRt();
    }

    method InitiateBcRetransmission()
      modifies this`tx, this`txCnt, this`sent
      ensures Vars() == RetryBc(old(Vars()))
    {
      tx := [];
      txCnt := (txCnt + 1) % 256;
      if sent != [] && sent[0].typeB {
        sent := sent[0 := sent[0].(rt := true)];
      }
    }

    /** Looks for something to send, and returns what there is to tell of that, or else what was told
        last. */
    method LookAndTell() returns (back: Notification)
      modifies this
      ensures Vars() == LookForFdu(old(Vars())).0
      ensures Told(back, signal) == Looked(LookForFdu(old(Vars())).1, old(signal))
    {
      hide LookForFdu;
      var notice := LookForAnFdu();
      if notice != Ignored {
        signal := Looked(notice, signal).back;
      }
      back := signal;
    }

    /** What looking for a directive has told is passed on in the same way. */
    method PassDirectiveOn(told: Notification) returns (back: Notification)
      modifies this`signal
      ensures Told(back, signal) == PassedOn(Told(told, old(signal)))
    {
      if told != NoNotice {
        signal := told;
      }
      back := signal;
    }

    /** The retransmission is started and its first frame sent. */
    method Retransmit() returns (back: Notification)
      modifies this
      ensures Vars() == LookForFdu(RetryAd(old(Vars()))).0
      ensures Told(back, signal) == Looked(LookForFdu(RetryAd(old(Vars()))).1, old(signal))
    {
      hide LookForFdu, RetryAd;
      InitiateAdRetransmission();
      back := LookAndTell();
    }

    /** The same for a control command. */
    method RetransmitCommand() returns (back: Notification)
      modifies this
      ensures Vars() == LookForDirective(RetryBc(old(Vars())))
      ensures Told(back, signal) == PassedOn(DirectiveLooked(RetryBc(old(Vars())), old(signal)))
    {
      hide LookForDirective, RetryBc, DirectiveLooked, PassedOn;
      InitiateBcRetransmission();
      back := LookForADirective();
      back := PassDirectiveOn(back);
    }

    /** The caller says what the alert is about. */
    method Alert(about: Notification) returns (back: Notification)
      modifies this
      ensures Vars() == Perform(old(Vars()), Alarm, 0) && back == signal == about
    {
      hide RemoveAcked, LookForFdu, RetryAd, RetryBc, LookForDirective;
      Purge();
      signal := about;
      state := Init;
      back := about;
    }

    method NothingToDo(e: Event) returns (back: Notification)
      ensures back == NothingDone(e, state)
    {
      match state {
        case Init => back := if e in {E16, E104, E17, E18} then NotApplicable else NoNotice;
        case InitNoBc => back := if e == E11 then NoNotice else NotApplicable;
        case InitBc =>
          back := if e == E101 then AcceptDir else if e in {E4, E11, E13, E14} then NoNotice else NotApplicable;
        case _ => back := NoNotice;
      }
    }

    method AcknowledgeAndLook(nr: Counter) returns (back: Notification)
      modifies this
      ensures Vars() == LookForFdu(RemoveAcked(old(Vars()), nr)).0
      ensures Told(back, signal) == Looked(LookForFdu(RemoveAcked(old(Vars()), nr)).1, old(signal))
    {
      hide RemoveAcked, LookForFdu, Looked;
      var _ := RemoveAckedFrames(nr);
      back := LookAndTell();
    }

    method AcknowledgeAndLookActive(nr: Counter) returns (back: Notification)
      modifies this
      ensures Vars() == LookForFdu(RemoveAcked(old(Vars()), nr)).0.(state := Active)
      ensures Told(back, signal) == Looked(LookForFdu(RemoveAcked(old(Vars()), nr)).1, old(signal))
    {
      hide RemoveAcked, LookForFdu, Looked;
      var _ := RemoveAckedFrames(nr);
      LookIgnoresState(Vars(), Active);
      state := Active;
      back := LookAndTell();
    }

    method AcknowledgeAndRetransmit(nr: Counter) returns (back: Notification)
      modifies this
      ensures Vars() == LookForFdu(RetryAd(RemoveAcked(old(Vars()), nr))).0
      ensures Told(back, signal) == Looked(LookForFdu(RetryAd(RemoveAcked(old(Vars()), nr))).1, old(signal))
    {
      hide RemoveAcked, LookForFdu, RetryAd, Looked;
      var _ := RemoveAckedFrames(nr);
      back := Retransmit();
    }

    // -------------------------------------------------------------------------------------
    // Events: the reports of the receiver
    // -------------------------------------------------------------------------------------

    method OnE1(ghost nr: Counter) returns (back: Notification)
      modifies this
      ensures Vars() == Perform(old(Vars()), Reaction(E1, old(state)), nr)
      ensures Told(back, signal) == Answer(old(Vars()), E1, nr, old(signal))
    {
      hide RemoveAcked, LookForFdu, RetryAd, RetryBc, LookForDirective;
      match state {
        case Active => back := NoNotice;
        case RtNoWait => back := Alert(AlertSynch);
        case RtWait => back := Alert(AlertSynch);
        case InitNoBc =>
          state := Active;
          back, signal := PositiveDir, PositiveDir;
        case InitBc =>
          if sent == [] {
            back, signal := UndefError, UndefError;
          } else {
            if sent[0].typeB { sent := sent[1..]; }
            state := Active;
            back, signal := PositiveDir, PositiveDir;
          }
        case Init => back := NoNotice;
      }
    }

    method OnE2(nr: Counter) returns (back: Notification)
      modifies this
      ensures Vars() == Perform(old(Vars()), Reaction(E2, old(state)), nr)
      ensures Told(back, signal) == Answer(old(Vars()), E2, nr, old(signal))
    {
      hide RemoveAcked, LookForFdu, RetryAd, RetryBc, LookForDirective, Looked, NothingDone, DirectiveLooked, PassedOn,
           Reaction;
      SessionReactions(state);
      if state == Active || state == RtNoWait || state == RtWait {
        back := AcknowledgeAndLook(nr);
      } else {
        back := NothingToDo(E2);
      }
    }

    method OnE6(nr: Counter) returns (back: Notification)
      modifies this
      ensures Vars() == Perform(old(Vars()), Reaction(E6, old(state)), nr)
      ensures Told(back, signal) == Answer(old(Vars()), E6, nr, old(signal))
    {
      hide RemoveAcked, LookForFdu, RetryAd, RetryBc, LookForDirective, Looked, NothingDone, DirectiveLooked, PassedOn,
           Reaction;
      SessionReactions(state);
      match state {
        case Active =>
          back := AcknowledgeAndLook(nr);
        case RtNoWait =>
          back := AcknowledgeAndLookActive(nr);
        case RtWait =>
          back := AcknowledgeAndLook(nr);
          state := Active;
        case _ =>
          back := NothingToDo(E6);
      }
    }

    method OnE101(nr: Counter) returns (back: Notification)
      modifies this
      ensures Vars() == Perform(old(Vars()), Reaction(E101, old(state)), nr)
      ensures Told(back, signal) == Answer(old(Vars()), E101, nr, old(signal))
    {
      hide RemoveAcked, LookForFdu, RetryAd, RetryBc, LookForDirective, Looked, NothingDone, DirectiveLooked, PassedOn,
           Reaction;
      SessionReactions(state);
      if state == Active || state == RtNoWait || state == RtWait {
        var _ := RemoveAckedFrames(nr);
        back := Alert(AlertLimit);
      } else {
        back := NothingToDo(E101);
      }
    }

    method OnE8(nr: Counter) returns (back: Notification)
      modifies this
      ensures Vars() == Perform(old(Vars()), Reaction(E8, old(state)), nr)
      ensures Told(back, signal) == Answer(old(Vars()), E8, nr, old(signal))
    {
      hide RemoveAcked, LookForFdu, RetryAd, RetryBc, LookForDirective, Looked, NothingDone, DirectiveLooked, PassedOn,
           Reaction;
      SessionReactions(state);
      if state == Active || state == RtNoWait || state == RtWait {
        back := AcknowledgeAndRetransmit(nr);
        state := RtNoWait;
      } else {
        back := NothingToDo(E8);
      }
    }

    method OnE9(nr: Counter) returns (back: Notification)
      modifies this
      ensures Vars() == Perform(old(Vars()), Reaction(E9, old(state)), nr)
      ensures Told(back, signal) == Answer(old(Vars()), E9, nr, old(signal))
    {
      hide RemoveAcked, LookForFdu, RetryAd, RetryBc, LookForDirective, Looked, NothingDone, DirectiveLooked, PassedOn,
           Reaction;
      SessionReactions(state);
      if state == Active || state == RtNoWait || state == RtWait {
        var _ := RemoveAckedFrames(nr);
        state := RtWait;
        back := NoNotice;
      } else {
        back := NothingToDo(E9);
      }
    }

    method OnE10(ghost nr: Counter) returns (back: Notification)
      modifies this
      ensures Vars() == Perform(old(Vars()), Reaction(E10, old(state)), nr)
      ensures Told(back, signal) == Answer(old(Vars()), E10, nr, old(signal))
    {
      hide RemoveAcked, LookForFdu, RetryAd, RetryBc, LookForDirective, Looked, NothingDone, DirectiveLooked, PassedOn,
           Reaction;
      SessionReactions(state);
      if state == Active || state == RtWait {
        back := Retransmit();
        state := RtNoWait;
      } else {
        back := NothingToDo(E10);
      }
    }

    // The events that do nothing but alert, unless there is nothing to alert about in this state.

    method OnE3(ghost nr: Counter) returns (back: Notification)
      modifies this
      ensures Vars() == Perform(old(Vars()), Reaction(E3, old(state)), nr)
      ensures Told(back, signal) == Answer(old(Vars()), E3, nr, old(signal))
    {
      hide RemoveAcked, LookForFdu, RetryAd, RetryBc, LookForDirective;
      if state != Init {
        back := Alert(AlertClcw);
      } else {
        back := NothingToDo(E3);
      }
    }

    method OnE4(ghost nr: Counter) returns (back: Notification)
      modifies this
      ensures Vars() == Perform(old(Vars()), Reaction(E4, old(state)), nr)
      ensures Told(back, signal) == Answer(old(Vars()), E4, nr, old(signal))
    {
      hide RemoveAcked, LookForFdu, RetryAd, RetryBc, LookForDirective;
      if state != InitBc && state != Init {
        back := Alert(AlertSynch);
      } else {
        back := NothingToDo(E4);
      }
    }

    method OnE5(ghost nr: Counter) returns (back: Notification)
      modifies this
      ensures Vars() == Perform(old(Vars()), Reaction(E5, old(state)), nr)
      ensures Told(back, signal) == Answer(old(Vars()), E5, nr, old(signal))
    {
      hide RemoveAcked, LookForFdu, RetryAd, RetryBc, LookForDirective;
      if state == RtNoWait || state == RtWait {
        back := Alert(AlertSynch);
      } else {
        back := NothingToDo(E5);
      }
    }

    method OnE7(ghost nr: Counter) returns (back: Notification)
      modifies this
      ensures Vars() == Perform(old(Vars()), Reaction(E7, old(state)), nr)
      ensures Told(back, signal) == Answer(old(Vars()), E7, nr, old(signal))
    {
      hide RemoveAcked, LookForFdu, RetryAd, RetryBc, LookForDirective;
      if state == Active || state == RtNoWait || state == RtWait {
        back := Alert(AlertClcw);
      } else {
        back := NothingToDo(E7);
      }
    }

    method OnE102(ghost nr: Counter) returns (back: Notification)
      modifies this
      ensures Vars() == Perform(old(Vars()), Reaction(E102, old(state)), nr)
      ensures Told(back, signal) == Answer(old(Vars()), E102, nr, old(signal))
    {
      hide RemoveAcked, LookForFdu, RetryAd, RetryBc, LookForDirective;
      if state == Active || state == RtNoWait || state == RtWait {
        back := Alert(AlertLimit);
      } else {
        back := NothingToDo(E102);
      }
    }

    method OnE13(ghost nr: Counter) returns (back: Notification)
      modifies this
      ensures Vars() == Perform(old(Vars()), Reaction(E13, old(state)), nr)
      ensures Told(back, signal) == Answer(old(Vars()), E13, nr, old(signal))
    {
      hide RemoveAcked, LookForFdu, RetryAd, RetryBc, LookForDirective;
      if state != InitBc && state != Init {
        back := Alert(AlertNnr);
      } else {
        back := NothingToDo(E13);
      }
    }

    method OnE14(ghost nr: Counter) returns (back: Notification)
      modifies this
      ensures Vars() == Perform(old(Vars()), Reaction(E14, old(state)), nr)
      ensures Told(back, signal) == Answer(old(Vars()), E14, nr, old(signal))
    {
      hide RemoveAcked, LookForFdu, RetryAd, RetryBc, LookForDirective;
      if state != InitBc && state != Init {
        back := Alert(AlertLockout);
      } else {
        back := NothingToDo(E14);
      }
    }

    method OnE17(ghost nr: Counter) returns (back: Notification)
      modifies this
      ensures Vars() == Perform(old(Vars()), Reaction(E17, old(state)), nr)
      ensures Told(back, signal) == Answer(old(Vars()), E17, nr, old(signal))
    {
      hide RemoveAcked, LookForFdu, RetryAd, RetryBc, LookForDirective;
      if state != Init {
        back := Alert(AlertT1);
      } else {
        back := NothingToDo(E17);
      }
    }

    method HandleClcw(clcw: Clcw) returns (back: Notification)
      modifies this
      ensures Vars() == OnClcw(old(Vars()), clcw)
      ensures Told(back, signal) == ClcwTold(old(Vars()), clcw, old(signal))
    {
      NoEventDoesNothing(Vars(), clcw.nr, signal);
      hide RemoveAcked, LookForFdu, RetryAd, RetryBc, LookForDirective, Perform, Reaction, Answer;
      if !clcw.lockout {
        if vs == clcw.nr {
          if !clcw.retransmit {
            if !clcw.wait {
              if clcw.nr == nnr { back := OnE1(clcw.nr); } else { back := OnE2(clcw.nr); }
            } else {
              back := OnE3(clcw.nr);
            }
          } else {
            back := OnE4(clcw.nr);
          }
        } else if (vs > clcw.nr && clcw.nr >= nnr) || (vs < clcw.nr && clcw.nr > nnr)
                  || (vs > clcw.nr && clcw.nr < nnr) {
          RangeTestOnCircle(clcw.nr, vs, nnr);
          if !clcw.retransmit {
            if !clcw.wait {
              if clcw.nr == nnr { back := OnE5(clcw.nr); } else { back := OnE6(clcw.nr); }
            } else {
              back := OnE7(clcw.nr);
            }
          } else if txLim == 1 {
            if clcw.nr != nnr { back := OnE101(clcw.nr); } else { back := OnE102(clcw.nr); }
          } else if txLim > 1 {
            if clcw.nr != nnr {
              if !clcw.wait { back := OnE8(clcw.nr); } else { back := OnE9(clcw.nr); }
            } else if txCnt < txLim {
              if !clcw.wait { back := OnE10(clcw.nr); } else { back := WaitForRelease(clcw.nr, E11); }
            } else {
              if !clcw.wait { back := RetryWithoutWait(clcw.nr); } else { back := WaitForRelease(clcw.nr, E103); }
            }
          } else {
            back, signal := UndefError, UndefError;
          }
        } else {
          RangeTestOnCircle(clcw.nr, vs, nnr);
          back := OnE13(clcw.nr);
        }
      } else {
        back := OnE14(clcw.nr);
      }
    }

    /** E11 and E103. */
    method WaitForRelease(ghost nr: Counter, e: Event) returns (back: Notification)
      requires e == E11 || e == E103
      modifies this
      ensures Vars() == Perform(old(Vars()), Reaction(e, old(state)), nr)
      ensures Told(back, signal) == Answer(old(Vars()), e, nr, old(signal))
    {
      hide RemoveAcked, LookForFdu, RetryAd, RetryBc, LookForDirective;
      back := NothingToDo(e);
      if state == Active || state == RtNoWait {
        state := RtWait;
      }
    }

    /** E12. */
    method RetryWithoutWait(ghost nr: Counter) returns (back: Notification)
      modifies this
      ensures Vars() == Perform(old(Vars()), Reaction(E12, old(state)), nr)
      ensures Told(back, signal) == Answer(old(Vars()), E12, nr, old(signal))
    {
      hide RemoveAcked, LookForFdu, RetryAd, RetryBc, LookForDirective;
      back := NothingToDo(E12);
      if state == Active || state == RtWait {
        state := RtNoWait;
      }
    }

    // -------------------------------------------------------------------------------------
    // Events: the timer
    // -------------------------------------------------------------------------------------

    method OnE16(suspending: bool) returns (back: Notification)
      modifies this
      ensures Vars() == Perform(old(Vars()), Reaction(if suspending then E104 else E16, old(state)), 0)
      ensures Told(back, signal) == Answer(old(Vars()), if suspending then E104 else E16, 0, old(signal))
    {
      hide RemoveAcked, LookForFdu, RetryAd, RetryBc, LookForDirective, Looked, NothingDone, DirectiveLooked, PassedOn;
      if state == Active || state == RtNoWait {
        back := Retransmit();
      } else if state == InitNoBc {
        if suspending {
          ss := 4;
          state := Init;
          back := Suspended;
        } else {
          back := Alert(AlertT1);
        }
      } else if state == InitBc {
        back := RetransmitCommand();
      } else {
        back := NothingToDo(if suspending then E104 else E16);
      }
    }

    method OnE18() returns (back: Notification)
      modifies this
      ensures Vars() == Perform(old(Vars()), Reaction(E18, old(state)), 0)
      ensures Told(back, signal) == Answer(old(Vars()), E18, 0, old(signal))
    {
      hide RemoveAcked, LookForFdu, RetryAd, RetryBc, LookForDirective;
      match state {
        case Active => ss, state, back := 1, Init, Suspended;
        case RtNoWait => ss, state, back := 2, Init, Suspended;
        case RtWait => ss, state, back := 3, Init, Suspended;
        case InitNoBc => ss, state, back := 4, Init, Suspended;
        case InitBc => back := Alert(AlertT1);
        case Init => back := NotApplicable;
      }
    }

    method HandleTimerExpired() returns (back: Notification)
      modifies this
      ensures Vars() == OnTimer(old(Vars())) && Told(back, signal) == TimerTold(old(Vars()), old(signal))
    {
      NoEventDoesNothing(Vars(), 0, signal);
      hide RemoveAcked, LookForFdu, RetryAd, RetryBc, LookForDirective, Perform, Reaction, Answer;
      if txCnt < txLim {
        if timeoutType == 0 {
          back := OnE16(false);
        } else if timeoutType == 1 {
          back := OnE16(true);
        } else {
          back, signal := UndefError, UndefError;
        }
      } else {
        if timeoutType == 0 {
          back := OnE17(0);
        } else if timeoutType == 1 {
          back := OnE18();
        } else {
          back, signal := UndefError, UndefError;
        }
      }
    }

    // -------------------------------------------------------------------------------------
    // Requests
    // -------------------------------------------------------------------------------------

    /** The user writes the header fields and hands over the data. */
    method PrepareFrame(newHdr: Header, newData: seq<byte>)
      modifies this`hdr, this`data
      ensures Vars() == Prepare(old(Vars()), newHdr, newData)
    {
      hdr := newHdr;
      data := newData;
    }

    method ReqTransferFdu() returns (notice: Notice)
      modifies this
      ensures (Vars(), notice) == OnRequest(old(Vars())) && signal == Looked(notice, old(signal)).signal
    {
      hide LookForFdu;
      if !hdr.typeB {
        if wait == [] {
          match state {
            case Active =>
              wait := wait + [Request(hdr, data)];
              assert wait == [Request(hdr, data)];
              notice := LookForAnFdu();
            case RtNoWait =>
              wait := wait + [Request(hdr, data)];
              assert wait == [Request(hdr, data)];
              notice := LookForAnFdu();
            case RtWait =>
              wait := wait + [Request(hdr, data)];
              assert wait == [Request(hdr, data)];
              notice, signal := Delayed, DelayResp;
            case _ =>
              notice, signal := Rejected, RejectTx;
          }
        } else {
          notice, signal := Rejected, RejectTx;
        }
      } else if !hdr.command {
        var ok := TxEnqueue(Frame(hdr, 0, data));
        notice := if ok then Accepted else Rejected;
        signal := if ok then AcceptTx else RejectTx;
      } else {
        notice, signal := Undefined, UndefError;
      }
    }

    // -------------------------------------------------------------------------------------
    // Directives from management
    // -------------------------------------------------------------------------------------

    method InitializeCop()
      modifies this`wait, this`sent, this`txCnt, this`ss
      ensures Vars() == Initialized(old(Vars()))
    {
      Purge();
      txCnt := 1;
      ss := 0;
    }

    method InitiateWithBc(command: seq<byte>) returns (back: Notification)
      modifies this
      ensures Vars() == WithBc(old(Vars()), command) && Told(back, signal) == WithBcTold(old(Vars()), command)
    {
      hdr := Header(true, true, hdr.seg.(flag := Unseg));
      data := command;
      var ok := TransmitTypeBc();
      if ok {
        state := InitBc;
        back, signal := AcceptDir, AcceptDir;
      } else {
        back, signal := UndefError, UndefError;
      }
    }

    method InitiateNoClcw() returns (back: Notification)
      modifies this
      ensures Vars() == OnDirective(old(Vars()), FopTable.InitiateNoClcw)
      ensures Told(back, signal) == DirectiveTold(old(Vars()), FopTable.InitiateNoClcw, old(signal))
    {
      if state == Init {
        InitializeCop();
        state := Active;
        back, signal := PositiveDir, PositiveDir;
      } else {
        back, signal := RejectDir, RejectDir;
      }
    }

    method InitiateWithClcw() returns (back: Notification)
      modifies this
      ensures Vars() == OnDirective(old(Vars()), FopTable.InitiateWithClcw)
      ensures Told(back, signal) == DirectiveTold(old(Vars()), FopTable.InitiateWithClcw, old(signal))
    {
      if state == Init {
        InitializeCop();
        state := InitNoBc;
        back, signal := AcceptDir, AcceptDir;
      } else {
        back, signal := RejectDir, RejectDir;
      }
    }

    method InitiateWithUnlock() returns (back: Notification)
      modifies this
      ensures Vars() == OnDirective(old(Vars()), FopTable.InitiateWithUnlock)
      ensures Told(back, signal) == DirectiveTold(old(Vars()), FopTable.InitiateWithUnlock, old(signal))
    {
      hide WithBc, WithBcTold;
      if state == Init {
        InitializeCop();
        back := InitiateWithBc([UNLOCK_CMD]);
      } else {
        back := RejectDir;
      }
    }

    method InitiateWithSetVr(v: Counter) returns (back: Notification)
      modifies this
      ensures Vars() == OnDirective(old(Vars()), FopTable.InitiateWithSetVr(v))
      ensures Told(back, signal) == DirectiveTold(old(Vars()), FopTable.InitiateWithSetVr(v), old(signal))
    {
      hide WithBc, WithBcTold;
      if state == Init {
        InitializeCop();
        vs := v;
        nnr := v;
        back := InitiateWithBc([SETVR_BYTE1, SETVR_BYTE2, v as byte]);
      } else {
        back := RejectDir;
      }
    }

    method TerminateAd() returns (back: Notification)
      modifies this
      ensures Vars() == OnDirective(old(Vars()), FopTable.TerminateAd)
      ensures Told(back, signal) == DirectiveTold(old(Vars()), FopTable.TerminateAd, old(signal))
    {
      if state != Init {
        back := Alert(NoNotice);
      }
      back, signal := PositiveDir, PositiveDir;
    }

    method ResumeAd() returns (back: Notification)
      modifies this
      ensures Vars() == OnDirective(old(Vars()), FopTable.ResumeAd)
      ensures Told(back, signal) == DirectiveTold(old(Vars()), FopTable.ResumeAd, old(signal))
    {
      if ss == 0 {
        back := RejectDir;
      } else if ss > 4 {
        back, signal := UndefError, UndefError;
      } else if state == Init {
        state := if ss == 1 then Active else if ss == 2 then RtNoWait else if ss == 3 then RtWait else InitNoBc;
        ss := 0;
        back, signal := PositiveDir, PositiveDir;
      } else {
        back := NotApplicable;
      }
    }

    method SetNewVs(v: Counter) returns (back: Notification)
      modifies this
      ensures Vars() == OnDirective(old(Vars()), FopTable.SetNewVs(v))
      ensures Told(back, signal) == DirectiveTold(old(Vars()), FopTable.SetNewVs(v), old(signal))
    {
      if state == Init && ss == 0 {
        vs := v;
        nnr := v;
        back, signal := PositiveDir, PositiveDir;
      } else {
        back := RejectDir;
      }
    }

    method SetSlidingWindow(k: Counter) returns (back: Notification)
      modifies this
      ensures Vars() == OnDirective(old(Vars()), SetWindow(k))
      ensures Told(back, signal) == DirectiveTold(old(Vars()), SetWindow(k), old(signal))
    {
      wnd := k;
      back, signal := PositiveDir, PositiveDir;
    }

    method SetLimit(limit: Counter) returns (back: Notification)
      modifies this
      ensures Vars() == OnDirective(old(Vars()), SetTxLimit(limit))
      ensures Told(back, signal) == DirectiveTold(old(Vars()), SetTxLimit(limit), old(signal))
    {
      txLim := limit;
      back, signal := PositiveDir, PositiveDir;
    }

    method SetTt(timeout: Counter) returns (back: Notification)
      modifies this
      ensures Vars() == OnDirective(old(Vars()), SetTimeoutType(timeout))
      ensures Told(back, signal) == DirectiveTold(old(Vars()), SetTimeoutType(timeout), old(signal))
    {
      timeoutType := timeout;
      back, signal := PositiveDir, PositiveDir;
    }

    // -------------------------------------------------------------------------------------
    // Responses of the lower layer
    // -------------------------------------------------------------------------------------

    method AdAccepted() returns (back: Notification)
      modifies this
      ensures Vars() == OnResponse(old(Vars()), AdAccept)
      ensures Told(back, signal) == ResponseTold(old(Vars()), AdAccept, old(signal))
    {
      hide LookForFdu;
      if state == Active || state == RtNoWait {
        back := LookAndTell();
      } else {
        back := NoNotice;
      }
    }

    method BcAccepted() returns (back: Notification)
      modifies this
      ensures Vars() == OnResponse(old(Vars()), BcAccept)
      ensures Told(back, signal) == ResponseTold(old(Vars()), BcAccept, old(signal))
      decreases if sent != [] && sent[0].rt then 1 else 0, 1
    {
      if state == InitBc {
        back := LookForADirective();
        back := PassDirectiveOn(back);
      } else {
        back := NoNotice;
      }
    }

    /** AD, BC and BD rejections alike. */
    method RejectedByLowerLayer() returns (back: Notification)
      modifies this
      ensures back == signal == AlertLlif
      ensures Vars() == OnResponse(old(Vars()), AdReject)
      ensures Vars() == OnResponse(old(Vars()), BcReject)
      ensures Vars() == OnResponse(old(Vars()), BdReject)
    {
      back := Alert(AlertLlif);
    }

    // -------------------------------------------------------------------------------------
    // Everything that can happen
    // -------------------------------------------------------------------------------------

    /** The lower layer takes a frame from the transmission queue. */
    method TxDequeue(position: nat)
      modifies this`tx
      ensures Vars() == FopStep(old(Vars()), Drained(position))
    {
      hide OnClcw, OnTimer, OnRequest, OnDirective, OnResponse;
      if position < |tx| {
        tx := tx[..position] + tx[position + 1..];
      }
    }

    method Direct(d: Directive) returns (back: Notification)
      modifies this
      ensures Vars() == OnDirective(old(Vars()), d) && Told(back, signal) == DirectiveTold(old(Vars()), d, old(signal))
    {
      hide OnDirective, DirectiveTold;
      match d {
        case InitiateNoClcw => back := InitiateNoClcw();
        case InitiateWithClcw => back := InitiateWithClcw();
        case InitiateWithUnlock => back := InitiateWithUnlock();
        case InitiateWithSetVr(v) => back := InitiateWithSetVr(v);
        case TerminateAd => back := TerminateAd();
        case ResumeAd => back := ResumeAd();
        case SetNewVs(v) => back := SetNewVs(v);
        case SetWindow(k) => back := SetSlidingWindow(k);
        case SetTxLimit(limit) => back := SetLimit(limit);
        case SetTimeoutType(timeout) => back := SetTt(timeout);
      }
    }

    method Respond(r: Response) returns (back: Notification)
      modifies this
      ensures Vars() == OnResponse(old(Vars()), r) && Told(back, signal) == ResponseTold(old(Vars()), r, old(signal))
    {
      hide LookForFdu, LookForDirective, DirectiveLooked;
      match r {
        case AdAccept => back := AdAccepted();
        case BcAccept => back := BcAccepted();
        case BdAccept => back, signal := AcceptTx, AcceptTx;
        case _ => back := RejectedByLowerLayer();
      }
    }

    /** Every event, by its procedure. */
    method Step(ev: FopEvent) returns (back: Notification)
      modifies this
      ensures Vars() == FopStep(old(Vars()), ev) && Told(back, signal) == EventTold(old(Vars()), ev, old(signal))
    {
      hide OnClcw, OnTimer, OnRequest, OnDirective, OnResponse, ClcwTold, TimerTold, DirectiveTold, ResponseTold;
      match ev {
        case ClcwArrives(clcw) => back := HandleClcw(clcw);
        case TimerExpires => back := HandleTimerExpired();
        case Prepared(newHdr, newData) =>
          PrepareFrame(newHdr, newData);
          back := NoNotice;
        case Requested =>
          var notice := ReqTransferFdu();
          back := Looked(notice, signal).back;
        case Directed(d) => back := Direct(d);
        case Answered(r) => back := Respond(r);
        case Drained(position) =>
          TxDequeue(position);
          back := NoNotice;
      }
    }
  }

  // ---------------------------------------------------------------------------------------
  // The code's comparisons, and what they mean on the circle of counter values
  // ---------------------------------------------------------------------------------------

  /** The first `n` items have been acknowledged. */
  ghost function WithoutFirst(f: FopVars, n: nat, nr: Counter): FopVars
    requires n <= |f.sent|
  {
    if n == 0 then f else f.(sent := f.sent[n..], nnr := nr, txCnt := 1)
  }

  lemma RemovesLeading(f: FopVars, nr: Counter, n: nat)
    requires n == (if Leading(f.sent, nr) <= f.wnd then Leading(f.sent, nr) else f.wnd + 1)
    ensures RemoveAcked(f, nr) == WithoutFirst(f, n, nr)
  {
    hide Leading;
  }

  /** The table for the events that concern an open session. */
  lemma SessionReactions(s: FopState)
    ensures Reaction(E2, s) == if s in {Active, RtNoWait, RtWait} then Acknowledge(s) else Ignore
    ensures Reaction(E6, s) == if s in {Active, RtNoWait, RtWait} then Acknowledge(Active) else Ignore
    ensures Reaction(E8, s) == if s in {Active, RtNoWait, RtWait} then AcknowledgeRetransmit(RtNoWait) else Ignore
    ensures Reaction(E9, s) == if s in {Active, RtNoWait, RtWait} then AcknowledgeOnly(RtWait) else Ignore
    ensures Reaction(E101, s) == if s in {Active, RtNoWait, RtWait} then AcknowledgeAlarm else Ignore
    ensures Reaction(E10, s) == if s in {Active, RtWait} then FopTable.Action.Retransmit(RtNoWait) else Ignore
  {
  }

  lemma NoEventDoesNothing(f: FopVars, nr: Counter, signal: Notification)
    ensures Perform(f, Reaction(NoEvent, f.state), nr) == f && Answer(f, NoEvent, nr, signal) == Both(UndefError)
  {
    hide RemoveAcked, LookForFdu, RetryAd, RetryBc, LookForDirective;
    assert Reaction(NoEvent, f.state) == Ignore;
  }

  lemma LookIgnoresState(f: FopVars, s: FopState)
    ensures LookForFdu(f.(state := s)) == (LookForFdu(f).0.(state := s), LookForFdu(f).1)
  {
    hide ResetRt, WindowTaken;
  }

  /** The two-branch window test, for all values. */
  lemma WindowTestOnCircle(vs: Counter, nnr: Counter, wnd: Counter)
    ensures WindowTaken(vs, nnr, wnd) <==>
            if nnr + wnd >= 256 then vs >= nnr || vs < (nnr + wnd) % 256 else vs < nnr + wnd
  {
  }

  /** The three-branch range test, for all values. */
  lemma RangeTestOnCircle(nr: Counter, vs: Counter, nnr: Counter)
    requires nr != vs
    ensures RangeTaken(nr, vs, nnr) <==>
            (vs > nr && nr >= nnr) || (vs < nr && nr > nnr) || (vs > nr && nr < nnr)
  {
  }
}
