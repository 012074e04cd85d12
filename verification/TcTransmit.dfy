/** The TC sender (src/osdlp_tc.c:342-426): a service data unit is cut into segments, which are
    handed to FOP-1 one by one, over as many calls as its flow control takes. */
module TcTransmit {
  import opened Octets
  import opened CopTypes
  import F = FopTable
  import W = FopWindow
  import opened FopUnit
  import N = FopNotices
  import Division

  // ---------------------------------------------------------------------------------------
  // The segments of a service data unit
  // ---------------------------------------------------------------------------------------

  /** The segment that starts at offset `off`. */
  function PieceAt(sdu: seq<byte>, off: nat, max: nat, mapId: bv8): (piece: Segment)
    requires off < |sdu| && 0 < max
    ensures 0 < |piece.data| <= |sdu| - off
  {
    var rest := |sdu| - off;
    var flag := if off > 0 then (if rest > max then Cont else Last) else if rest > max then First else Unseg;
    Segment(SegHeader(flag, mapId), sdu[off..off + Min(rest, max)])
  }

  /** The segments from offset `off` on. */
  function Pieces(sdu: seq<byte>, off: nat, max: nat, mapId: bv8): seq<Segment>
    requires off <= |sdu| && 0 < max
    decreases |sdu| - off
  {
    if off == |sdu| then []
    else [PieceAt(sdu, off, max, mapId)] + Pieces(sdu, off + Min(|sdu| - off, max), max, mapId)
  }

  function DataOf(segs: seq<Segment>): seq<byte> {
    if segs == [] then [] else segs[0].data + DataOf(segs[1..])
  }

  /** The segments carry the rest of the unit, and number its length divided by the segment size,
      rounded up. */
  lemma {:induction false} PiecesCarryTheUnit(sdu: seq<byte>, off: nat, max: nat, mapId: bv8)
    requires off <= |sdu| && 0 < max
    ensures DataOf(Pieces(sdu, off, max, mapId)) == sdu[off..]
    ensures var n := |Pieces(sdu, off, max, mapId)|;
            (n - 1) * max < |sdu| - off <= n * max || (n == 0 && off == |sdu|)
    decreases |sdu| - off
  {
    var rest := |sdu| - off;
    var n := |Pieces(sdu, off, max, mapId)|;
    if rest > 0 {
      var next := off + Min(rest, max);
      PiecesCarryTheUnit(sdu, next, max, mapId);
      assert sdu[off..next] + sdu[next..] == sdu[off..];
      assert n == 1 + |Pieces(sdu, next, max, mapId)|;
      OneMoreTimes(n - 1, max);
      OneMoreTimes(n - 2, max);
    }
  }

  lemma OneMoreTimes(n: int, max: nat)
    ensures (n + 1) * max == n * max + max
  {
  }

  /** The flags tell where a segment stands: alone, or first, then any number in between, then last. */
  lemma {:induction false} FlagsTellPosition(sdu: seq<byte>, off: nat, max: nat, mapId: bv8, i: nat)
    requires off < |sdu| && 0 < max && i < |Pieces(sdu, off, max, mapId)|
    ensures var n := |Pieces(sdu, off, max, mapId)|;
            var p := Pieces(sdu, off, max, mapId)[i];
            && p.seg.mapId == mapId && 1 <= |p.data| <= max
            && p.seg.flag == if i == 0 && off == 0 then (if n == 1 then Unseg else First)
                             else if i == n - 1 then Last else Cont
    decreases |sdu| - off
  {
    var next := off + Min(|sdu| - off, max);
    assert |Pieces(sdu, off, max, mapId)| == 1 + |Pieces(sdu, next, max, mapId)|;
    if next < |sdu| {
      assert |Pieces(sdu, next, max, mapId)| >= 1;
      if i > 0 {
        FlagsTellPosition(sdu, next, max, mapId, i - 1);
      }
    }
  }

  // ---------------------------------------------------------------------------------------
  // One call
  // ---------------------------------------------------------------------------------------

  /** A COP error comes with the signal REJECT_TX, or else UNDEF_ERROR. */
  datatype TxResult = TxOk | TxDelay | TxReject | TxUndef

  function SignalOf(res: TxResult): N.Notification {
    match res
    case TxOk => N.AcceptTx
    case TxDelay => N.DelayResp
    case TxReject => N.RejectTx
    case TxUndef => N.UndefError
  }

  /** What a call does when `off` octets of the unit are already with FOP-1: the new FOP variables,
      the offset the next call resumes from (zero when no unit is under way), and the result. */
  function SendFrom(f: F.FopVars, sdu: seq<byte>, off: nat, max: nat): (F.FopVars, nat, TxResult)
    requires 0 < max && off <= |sdu|
    decreases |sdu| - off
  {
    if off == |sdu| then (f, 0, TxOk)
    else
      var piece := PieceAt(sdu, off, max, f.hdr.seg.mapId);
      var next := off + |piece.data|;
      var g := F.Prepare(f, f.hdr.(seg := piece.seg), piece.data);
      if |g.tx| >= g.txCap then (g, off, TxReject)
      else
        var (h, notice) := F.OnRequest(g);
        match notice
        case Rejected => (h, 0, TxReject)
        case Undefined => (h, 0, TxUndef)
        case Delayed => (h, if next < |sdu| then next else 0, TxDelay)
        case _ => SendFrom(h, sdu, next, max)
  }

  /** One segment of a call. */
  lemma SendStep(f: F.FopVars, sdu: seq<byte>, off: nat, max: nat)
    requires 0 < max && off < |sdu|
    ensures var piece := PieceAt(sdu, off, max, f.hdr.seg.mapId);
            var next := off + |piece.data|;
            var g := F.Prepare(f, f.hdr.(seg := piece.seg), piece.data);
            var (h, notice) := F.OnRequest(g);
            SendFrom(f, sdu, off, max)
               == if |g.tx| >= g.txCap then (g, off, TxReject)
                  else match notice
                    case Rejected => (h, 0, TxReject)
                    case Undefined => (h, 0, TxUndef)
                    case Delayed => (h, if next < |sdu| then next else 0, TxDelay)
                    case _ => SendFrom(h, sdu, next, max)
    ensures SignalOf(TxReject) == N.RejectTx
  {
    hide F.OnRequest, PieceAt;
  }

  lemma SendEnds(f: F.FopVars, sdu: seq<byte>, max: nat)
    requires 0 < max
    ensures SendFrom(f, sdu, |sdu|, max) == (f, 0, TxOk) && SignalOf(TxOk) == N.AcceptTx
  {
  }

  class TcSender {
    const fop: Fop
    const maxDataLen: nat
    var inProgress: bool
    var octetsTxed: nat

    /** The offset recorded for the unit under way. */
    ghost function Offset(): nat
      reads this
    {
      if inProgress then octetsTxed else 0
    }

    constructor (fop: Fop, max: nat)
      ensures this.fop == fop && maxDataLen == max && Offset() == 0
    {
      this.fop, maxDataLen := fop, max;
      inProgress, octetsTxed := false, 0;
    }

    method Record(offset: nat)
      modifies this
      ensures Offset() == offset && (inProgress <==> offset > 0)
    {
      inProgress, octetsTxed := offset > 0, offset;
    }

    /** Writes the frame fields for the next segment; the flag depends on whether a unit is under way. */
    method PrepareSegment(sdu: seq<byte>, remaining: nat) returns (bytesAvail: nat)
      requires 0 < maxDataLen && 0 < remaining <= |sdu| && (inProgress <==> remaining < |sdu|)
      modifies fop
      ensures var piece := PieceAt(sdu, |sdu| - remaining, maxDataLen, old(fop.hdr.seg.mapId));
              && fop.Vars() == F.Prepare(old(fop.Vars()), old(fop.hdr).(seg := piece.seg), piece.data)
              && bytesAvail == |piece.data|
    {
      bytesAvail := if remaining / maxDataLen > 0 then maxDataLen else remaining;
      FullSegment(remaining, maxDataLen);
      var flag;
      if inProgress {
        flag := if remaining > maxDataLen then Cont else Last;
      } else {
        flag := if remaining <= bytesAvail then Unseg else First;
      }
      var off := |sdu| - remaining;
      fop.PrepareFrame(fop.hdr.(seg := fop.hdr.seg.(flag := flag)), sdu[off..off + bytesAvail]);
    }

    /** Records how much of the unit is handed over, and says whether the call ends here. */
    method HandleNotice(notice: F.Notice, offset: nat) returns (done: bool, res: TxResult)
      requires notice == F.Delayed ==> fop.signal == N.DelayResp
      modifies this, fop`signal
      ensures fop.Vars() == old(fop.Vars()) && (done ==> fop.signal == SignalOf(res))
      ensures done <==> notice in {F.Rejected, F.Delayed, F.Undefined}
      ensures Offset() == (if notice in {F.Rejected, F.Undefined} then 0 else offset) && (inProgress <==> Offset() > 0)
      ensures done ==>
                res == if notice == F.Rejected then TxReject else if notice == F.Delayed then TxDelay else TxUndef
    {
      done, res := true, TxOk;
      match notice {
        case Rejected =>
          Record(0);
          fop.signal := N.RejectTx;
          res := TxReject;
        case Delayed =>
          Record(offset);
          res := TxDelay;
        case Undefined =>
          Record(0);
          fop.signal := N.UndefError;
          res := TxUndef;
        case _ =>
          Record(offset);
          done := false;
      }
    }

    /** The body of the loop: one segment, unless the transmission queue is full. */
    method SendSegment(sdu: seq<byte>, remaining: nat) returns (left: nat, done: bool, res: TxResult)
      requires 0 < maxDataLen && 0 < remaining <= |sdu| && Offset() == |sdu| - remaining
      requires inProgress <==> remaining < |sdu|
      modifies this, fop
      ensures done ==> (fop.Vars(), Offset(), res) == SendFrom(old(fop.Vars()), sdu, |sdu| - remaining, maxDataLen)
                       && fop.signal == SignalOf(res)
      ensures !done ==> left < remaining && SendFrom(fop.Vars(), sdu, |sdu| - left, maxDataLen)
                                            == SendFrom(old(fop.Vars()), sdu, |sdu| - remaining, maxDataLen)
                        && Offset() == if left > 0 then |sdu| - left else 0
      ensures inProgress <==> 0 < Offset()
      ensures Offset() < |sdu|
    {
      hide F.OnRequest, PieceAt, SendFrom, SignalOf;
      SendStep(fop.Vars(), sdu, |sdu| - remaining, maxDataLen);
      var bytesAvail := PrepareSegment(sdu, remaining);
      left := remaining;
      if |fop.tx| >= fop.txCap {
        fop.signal := N.RejectTx;
        return left, true, TxReject;
      }
      var notice := fop.ReqTransferFdu();
      left := remaining - bytesAvail;
      done, res := HandleNotice(notice, if left > 0 then |sdu| - left else 0);
    }

    /** `osdlp_tc_transmit`. A unit under way is given again, whole. */
    method Transmit(sdu: seq<byte>) returns (res: TxResult)
      requires 0 < maxDataLen && |sdu| < 65536 && Offset() <= |sdu|
      requires inProgress ==> 0 < octetsTxed < |sdu|
      modifies this, fop
      ensures (fop.Vars(), Offset(), res) == SendFrom(old(fop.Vars()), sdu, old(Offset()), maxDataLen)
      ensures fop.signal == SignalOf(res)
      ensures inProgress ==> 0 < octetsTxed < |sdu|
    {
      hide SendFrom, SignalOf;
      var remaining := |sdu|;
      if inProgress {
        remaining := |sdu| - octetsTxed;
      }
      ghost var outcome := SendFrom(fop.Vars(), sdu, |sdu| - remaining, maxDataLen);
      while remaining > 0
        invariant 0 <= remaining <= |sdu|
        invariant outcome == SendFrom(fop.Vars(), sdu, |sdu| - remaining, maxDataLen)
        invariant Offset() == if remaining > 0 then |sdu| - remaining else 0
        invariant inProgress <==> 0 < remaining < |sdu|
        decreases remaining
      {
        var done;
        remaining, done, res := SendSegment(sdu, remaining);
        if done {
          return;
        }
      }
      SendEnds(fop.Vars(), sdu, maxDataLen);
      fop.signal := N.AcceptTx;
      res := TxOk;
    }
  }

  lemma FullSegment(remaining: nat, max: nat)
    requires 0 < max
    ensures remaining / max > 0 <==> remaining >= max
  {
    if remaining < max {
      Division.Small(remaining, max);
    } else {
      Division.OneLess(remaining, max);
    }
  }

  // ---------------------------------------------------------------------------------------
  // What a call hands over
  // ---------------------------------------------------------------------------------------

  /** A sender within a session that takes new type-A data. */
  ghost predicate Ready(f: F.FopVars, base: Counter) {
    W.Running(f, base) && f.wait == [] && !f.hdr.typeB
  }

  lemma PreparedKeepsWindow(f: F.FopVars, base: Counter, piece: Segment)
    requires Ready(f, base)
    ensures var g := F.Prepare(f, f.hdr.(seg := piece.seg), piece.data);
            Ready(g, base) && W.Submitted(g) == W.Submitted(f)
  {
    W.ChangeKeepsWindow(f, F.Prepare(f, f.hdr.(seg := piece.seg), piece.data), base);
  }

  /** A segment given to a ready sender is taken; the answer tells whether it still waits. */
  lemma SegmentIsTaken(f: F.FopVars, base: Counter, piece: Segment)
    requires Ready(f, base)
    ensures var g := F.Prepare(f, f.hdr.(seg := piece.seg), piece.data);
            var (h, notice) := F.OnRequest(g);
            && W.Running(h, base) && h.hdr == g.hdr
            && W.Submitted(h) == W.Submitted(f) + [piece]
            && notice != F.Rejected
            && (notice == F.Accepted || notice == F.Ignored ==> Ready(h, base))
  {
    hide W.Window;
    var g := F.Prepare(f, f.hdr.(seg := piece.seg), piece.data);
    PreparedKeepsWindow(f, base, piece);
    var _, _ := W.RequestKeepsWindow(g, base);
    AnswerTellsWaiting(g);
  }

  lemma AnswerTellsWaiting(g: F.FopVars)
    requires !g.hdr.typeB && g.wait == []
    ensures var (h, notice) := F.OnRequest(g);
            && h.hdr == g.hdr
            && (notice == F.Accepted || notice == F.Ignored ==> h.wait == [])
  {
    hide F.FirstMarked, F.Leading, F.ResetRt, F.WindowTaken;
  }

  /** What is left of the unit after a call that may be taken up again. */
  function Left(sdu: seq<byte>, resume: nat, res: TxResult, max: nat, mapId: bv8): seq<Segment>
    requires resume <= |sdu| && 0 < max
  {
    if res == TxReject then Pieces(sdu, resume, max, mapId)
    else if resume == 0 then [] else Pieces(sdu, resume, max, mapId)
  }

  /** The call has handed over the segments `given`. */
  ghost predicate HandsOver(f: F.FopVars, base: Counter, sdu: seq<byte>, off: nat, max: nat, given: seq<Segment>)
    requires 0 < max && off <= |sdu|
  {
    var (g, resume, res) := SendFrom(f, sdu, off, max);
    var mapId := f.hdr.seg.mapId;
    && W.Running(g, base) && resume <= |sdu| && !g.hdr.typeB && g.hdr.seg.mapId == mapId
    && W.Submitted(g) == W.Submitted(f) + given
    && given <= Pieces(sdu, off, max, mapId)
    && (res != TxUndef ==> given + Left(sdu, resume, res, max, mapId) == Pieces(sdu, off, max, mapId))
    && (res != TxDelay && res != TxUndef ==> Ready(g, base))
    && (res == TxOk ==> resume == 0)
    && (res == TxReject ==> |g.tx| >= g.txCap)
  }

  /** Within a session a call hands over a prefix of the unit's remaining segments, in order. Unless it
      ends in UNDEF_ERROR, what it hands over and what is left to resume from are together exactly
      the segments that were left before: nothing is skipped and nothing handed over twice. */
  lemma {:induction false} CallHandsOverPieces(f: F.FopVars, base: Counter, sdu: seq<byte>, off: nat, max: nat)
      returns (given: seq<Segment>)
    requires Ready(f, base) && 0 < max && off <= |sdu|
    ensures HandsOver(f, base, sdu, off, max, given)
    decreases |sdu| - off
  {
    hide F.OnRequest, W.Window;
    given := [];
    if off < |sdu| {
      var piece := PieceAt(sdu, off, max, f.hdr.seg.mapId);
      var next := off + |piece.data|;
      var g := F.Prepare(f, f.hdr.(seg := piece.seg), piece.data);
      PreparedKeepsWindow(f, base, piece);
      SegmentIsTaken(f, base, piece);
      if |g.tx| < g.txCap {
        var (h, notice) := F.OnRequest(g);
        given := [piece];
        assert Pieces(sdu, off, max, f.hdr.seg.mapId) == [piece] + Pieces(sdu, next, max, f.hdr.seg.mapId);
        if notice == F.Accepted || notice == F.Ignored {
          assert SendFrom(f, sdu, off, max) == SendFrom(h, sdu, next, max);
          var more := CallHandsOverPieces(h, base, sdu, next, max);
          given := [piece] + more;
          HandsOverOneMore(f, h, base, sdu, off, max, piece, more);
        }
      }
    }
  }

  lemma HandsOverOneMore(f: F.FopVars, h: F.FopVars, base: Counter, sdu: seq<byte>, off: nat, max: nat,
                         piece: Segment, more: seq<Segment>)
    requires 0 < max && off < |sdu| && piece == PieceAt(sdu, off, max, f.hdr.seg.mapId)
    requires var next := off + |piece.data|;
             && HandsOver(h, base, sdu, next, max, more)
             && SendFrom(f, sdu, off, max) == SendFrom(h, sdu, next, max)
    requires h.hdr.seg.mapId == f.hdr.seg.mapId && W.Submitted(h) == W.Submitted(f) + [piece]
    ensures HandsOver(f, base, sdu, off, max, [piece] + more)
  {
    hide SendFrom, W.Running, W.Submitted;
    var (g, resume, res) := SendFrom(f, sdu, off, max);
    assert W.Submitted(f) + [piece] + more == W.Submitted(f) + ([piece] + more);
    var next := off + |piece.data|;
    assert Pieces(sdu, off, max, f.hdr.seg.mapId) == [piece] + Pieces(sdu, next, max, f.hdr.seg.mapId);
    if res != TxUndef {
      var left := Left(sdu, resume, res, max, f.hdr.seg.mapId);
      assert [piece] + more + left == [piece] + (more + left);
    }
  }

  /** UNDEF_ERROR is given exactly when a retransmitted frame takes the last place of the transmission
      queue before the segment can; the segment is then on the sent queue all the same. */
  lemma UndefinedExactly(f: F.FopVars, base: Counter, piece: Segment)
    requires Ready(f, base) && |f.tx| < f.txCap
    ensures var (h, notice) := F.OnRequest(F.Prepare(f, f.hdr.(seg := piece.seg), piece.data));
            notice == F.Undefined <==>
              f.state != F.RtWait && F.FirstMarked(f.sent) < |f.sent| < f.wnd && |f.tx| + 1 == f.txCap
  {
    PreparedKeepsWindow(f, base, piece);
    var g := F.Prepare(f, f.hdr.(seg := piece.seg), piece.data);
    W.OutstandingIsSent(g, base);
    hide F.FirstMarked, F.WindowTaken, F.Leading, W.ItemAt;
  }

  /** Where the next call resumes, in any state: from the start of a unit after one that went through and after
      UNDEF_ERROR, which forgets how much was handed over; behind the segment that waits if there is more;
      and never at the end. */
  lemma {:induction false} ResumeTells(f: F.FopVars, sdu: seq<byte>, off: nat, max: nat)
    requires 0 < max && off <= |sdu|
    ensures var (_, resume, res) := SendFrom(f, sdu, off, max);
            && (res == TxOk || res == TxUndef ==> resume == 0)
            && (res == TxDelay ==> resume == 0 || off < resume < |sdu|)
            && (res == TxReject ==> resume == 0 || off <= resume < |sdu|)
    decreases |sdu| - off
  {
    hide F.OnRequest, PieceAt;
    if off < |sdu| {
      var piece := PieceAt(sdu, off, max, f.hdr.seg.mapId);
      var g := F.Prepare(f, f.hdr.(seg := piece.seg), piece.data);
      ResumeTells(F.OnRequest(g).0, sdu, off + |piece.data|, max);
    }
  }

  // ---------------------------------------------------------------------------------------
  // A call that comes too early
  // ---------------------------------------------------------------------------------------

  /** The sender takes no new type-A data: a request waits, or the session is not open. */
  predicate Busy(f: F.FopVars) {
    f.wait != [] || !W.Open(f.state)
  }

  /** A call that finds the transmission queue with room is rejected at its first segment exactly if the
      sender is busy, and then forgets how much of the unit it has handed over. */
  lemma EarlyCallForgets(f: F.FopVars, sdu: seq<byte>, off: nat, max: nat)
    requires !f.hdr.typeB && 0 < max && off < |sdu| && |f.tx| < f.txCap
    ensures var piece := PieceAt(sdu, off, max, f.hdr.seg.mapId);
            var g := F.Prepare(f, f.hdr.(seg := piece.seg), piece.data);
            && (F.OnRequest(g).1 == F.Rejected <==> Busy(f))
            && (Busy(f) ==> SendFrom(f, sdu, off, max) == (g, 0, TxReject))
  {
    hide F.LookForFdu, PieceAt;
  }

  /** Besides, the header fields it leaves behind are packed with the request that waits: that is sent as
      it was given exactly if the two segment headers are the same. */
  lemma WaitingRequestRelabelled(f: F.FopVars, base: Counter, sdu: seq<byte>, off: nat, max: nat)
    requires W.Window(f, base) && f.wait != [] && 0 < max && off < |sdu| && |f.tx| < f.txCap
    ensures var g := SendFrom(f, sdu, off, max).0;
            var given := Frame(f.wait[0].hdr, f.vs, f.wait[0].data);
            && g.wait == f.wait
            && (F.TransmitAd(g).0.log == f.log + [Payload(given)]
                <==> f.wait[0].hdr.seg == PieceAt(sdu, off, max, f.hdr.seg.mapId).seg)
  {
    hide PieceAt, F.ToUplink;
    EarlyCallForgets(f, sdu, off, max);
    var g := SendFrom(f, sdu, off, max).0;
    var h := F.TransmitAd(g).0;
    assert h.log == f.log + [Payload(F.Pack(g, g.wait[0].data))] by { UplinkKeepsLog(g); }
    assert h.log[|f.log|] == Payload(F.Pack(g, g.wait[0].data));
  }

  lemma UplinkKeepsLog(f: F.FopVars)
    requires f.wait != []
    ensures F.TransmitAd(f).0.log == f.log + [Payload(F.Pack(f, f.wait[0].data))]
  {
  }
}
