/** The TC service end to end: segmentation, FOP-1, two lossy channels, FARM-1 and reassembly. */
module TcService {
  import opened Octets
  import opened CopTypes
  import F = FopTable
  import W = FopWindow
  import C = ClosedLoop
  import R = Farm
  import TX = TcTransmit
  import RX = TcReceive

  // ---------------------------------------------------------------------------------------
  // Reassembling the segments of a list of units
  // ---------------------------------------------------------------------------------------

  /** The reassembly under way and the units it has completed. */
  datatype Intake = Intake(reasm: RX.Reasm, delivered: seq<seq<byte>>)

  function TakeIn(i: Intake, lim: RX.Limits, s: Segment): Intake {
    var (reasm, piece) := RX.Reassemble(i.reasm, lim, s);
    Intake(reasm, if piece.Complete? then i.delivered + [piece.sdu] else i.delivered)
  }

  function TakeInAll(i: Intake, lim: RX.Limits, segs: seq<Segment>): Intake {
    if segs == [] then i else TakeIn(TakeInAll(i, lim, segs[..|segs| - 1]), lim, segs[|segs| - 1])
  }

  lemma TakeInNone(i: Intake, lim: RX.Limits)
    ensures TakeInAll(i, lim, []) == i
  {
  }

  lemma {:induction false} TakeInAppend(i: Intake, lim: RX.Limits, a: seq<Segment>, b: seq<Segment>)
    ensures TakeInAll(i, lim, a + b) == TakeInAll(TakeInAll(i, lim, a), lim, b)
    decreases |b|
  {
    hide TakeIn;
    if b == [] {
      assert a + b == a;
    } else {
      var n := |b| - 1;
      assert (a + b)[..|a + b| - 1] == a + b[..n];
      TakeInAppend(i, lim, a, b[..n]);
    }
  }

  lemma AppendOne(i: Intake, lim: RX.Limits, segs: seq<Segment>, s: Segment)
    ensures TakeInAll(i, lim, segs + [s]) == TakeIn(TakeInAll(i, lim, segs), lim, s)
  {
    assert (segs + [s])[..|segs + [s]| - 1] == segs;
    hide TakeIn;
  }

  /** The limits of the receiver cover what the sender sends. */
  predicate Deliverable(sdu: seq<byte>, max: nat, lim: RX.Limits) {
    1 <= |sdu| <= lim.maxSdu && 0 < max <= lim.maxData
  }

  /** Reassembly has everything of the unit up to offset `off`. */
  predicate HasUpTo(i: Intake, sdu: seq<byte>, off: nat)
    requires off <= |sdu|
  {
    i.reasm == if off == 0 then RX.Closed else RX.Gathering(sdu[..off])
  }

  lemma TakesInPiece(i: Intake, sdu: seq<byte>, off: nat, max: nat, mapId: bv8, lim: RX.Limits)
    requires Deliverable(sdu, max, lim) && off < |sdu| && HasUpTo(i, sdu, off)
    ensures var next := off + Min(|sdu| - off, max);
            var j := TakeIn(i, lim, TX.PieceAt(sdu, off, max, mapId));
            if next < |sdu| then HasUpTo(j, sdu, next) && j.delivered == i.delivered
            else j == Intake(RX.Closed, i.delivered + [sdu])
  {
    var next := off + Min(|sdu| - off, max);
    assert sdu[..off] + sdu[off..next] == sdu[..next];
    if next == |sdu| { assert sdu[..next] == sdu; }
  }

  lemma TakeInOne(i: Intake, lim: RX.Limits, s: Segment, rest: seq<Segment>)
    ensures TakeInAll(i, lim, [s] + rest) == TakeInAll(TakeIn(i, lim, s), lim, rest)
  {
    hide TakeIn;
    TakeInAppend(i, lim, [s], rest);
    assert [s][..0] == [];
    assert TakeInAll(i, lim, [s]) == TakeIn(i, lim, s);
  }

  /** All the segments of a unit complete it and leave no reassembly open; fewer complete nothing. */
  lemma {:induction false} TakesInUnit(i: Intake, sdu: seq<byte>, off: nat, max: nat, mapId: bv8, lim: RX.Limits,
                                       segs: seq<Segment>)
    requires Deliverable(sdu, max, lim) && off < |sdu| && HasUpTo(i, sdu, off)
    requires segs <= TX.Pieces(sdu, off, max, mapId)
    ensures var t := TakeInAll(i, lim, segs);
            if segs == TX.Pieces(sdu, off, max, mapId) then t == Intake(RX.Closed, i.delivered + [sdu])
            else t.delivered == i.delivered
    decreases |sdu| - off
  {
    hide TakeInAll, TakeIn, TX.PieceAt;
    var piece := TX.PieceAt(sdu, off, max, mapId);
    var next := off + Min(|sdu| - off, max);
    var rest := TX.Pieces(sdu, next, max, mapId);
    assert TX.Pieces(sdu, off, max, mapId) == [piece] + rest;
    if segs == [] {
      TakeInNone(i, lim);
    } else {
      var later := segs[1..];
      assert segs == [piece] + later && later <= rest;
      TakeInOne(i, lim, piece, later);
      TakesInPiece(i, sdu, off, max, mapId, lim);
      var j := TakeIn(i, lim, piece);
      if next < |sdu| {
        TakesInUnit(j, sdu, next, max, mapId, lim, later);
      } else {
        TakeInNone(j, lim);
      }
    }
  }

  function AllPieces(sdus: seq<seq<byte>>, max: nat, mapId: bv8): seq<Segment>
    requires 0 < max
  {
    if sdus == [] then [] else TX.Pieces(sdus[0], 0, max, mapId) + AllPieces(sdus[1..], max, mapId)
  }

  /** Whatever part of the segments of a list of units arrives in order, the units delivered are a
      prefix of the list; all of the segments deliver all of it. */
  lemma {:induction false} PrefixDelivers(i: Intake, sdus: seq<seq<byte>>, max: nat, mapId: bv8, lim: RX.Limits,
                                          segs: seq<Segment>)
      returns (k: nat)
    requires 0 < max && i.reasm == RX.Closed && forall j :: 0 <= j < |sdus| ==> Deliverable(sdus[j], max, lim)
    requires segs <= AllPieces(sdus, max, mapId)
    ensures k <= |sdus| && TakeInAll(i, lim, segs).delivered == i.delivered + sdus[..k]
    ensures segs == AllPieces(sdus, max, mapId) ==> k == |sdus| && TakeInAll(i, lim, segs).reasm == RX.Closed
    decreases |sdus|
  {
    hide TX.Pieces, TakeInAll, TakeIn;
    k := 0;
    if sdus == [] {
      assert TakeInAll(i, lim, segs) == i by { TakeInNone(i, lim); }
      assert i.delivered + sdus[..0] == i.delivered;
    } else {
      var first := TX.Pieces(sdus[0], 0, max, mapId);
      var rest := AllPieces(sdus[1..], max, mapId);
      if |segs| < |first| {
        assert segs <= first;
        TakesInUnit(i, sdus[0], 0, max, mapId, lim, segs);
        assert i.delivered + sdus[..0] == i.delivered;
      } else {
        assert AllPieces(sdus, max, mapId) == first + rest;
        assert segs == first + segs[|first|..] && segs[|first|..] <= rest;
        TakesInUnit(i, sdus[0], 0, max, mapId, lim, first);
        TakeInAppend(i, lim, first, segs[|first|..]);
        var j := Intake(RX.Closed, i.delivered + [sdus[0]]);
        var n := PrefixDelivers(j, sdus[1..], max, mapId, lim, segs[|first|..]);
        k := n + 1;
        assert i.delivered + [sdus[0]] + sdus[1..][..n] == i.delivered + sdus[..k];
      }
    }
  }

  // ---------------------------------------------------------------------------------------
  // The service
  // ---------------------------------------------------------------------------------------

  /** What the service is to carry and within which limits: the units, the segment size, the limits
      of the receiver, and the largest window. */
  datatype Plan = Plan(sdus: seq<seq<byte>>, max: nat, lim: RX.Limits, kmax: Counter)

  predicate Sensible(p: Plan) {
    0 < p.max && forall j :: 0 <= j < |p.sdus| ==> Deliverable(p.sdus[j], p.max, p.lim)
  }

  /** A closed loop that carries the units: `sent` of them are wholly with FOP-1, `offset` octets of
      the next one; `stopped` after UNDEF_ERROR, which loses count of them. At the other end the
      reassembly under way, the receive queue, and the units the user has `taken` from it. */
  datatype Service = Service(link: C.Link, sent: nat, offset: nat, stopped: bool,
                             reasm: RX.Reasm, rx: seq<seq<byte>>, rxCap: nat, taken: seq<seq<byte>>)

  datatype Act = Move(move: C.Move) | Transmit | UnitTaken

  function Receiver(s: Service): RX.RxState {
    RX.RxState(s.link.farm, s.reasm, s.rx, s.rxCap)
  }

  /** Everything that has been delivered, taken from the queue or still in it. */
  function Units(s: Service): seq<seq<byte>> {
    s.taken + s.rx
  }

  /** The sender is used through the service alone, which gives the unit under way again until it is
      through, and only to a sender in an open state with no request waiting. Whether the receiver
      has room is told by its queue. */
  predicate Enabled(s: Service, a: Act, p: Plan) {
    match a
    case Move(m) =>
      && C.Enabled(s.link, m, p.kmax) && 0 < s.rxCap
      && (m.AtSender? ==> !m.event.Prepared? && !m.event.Requested?)
      && (m.UplinkDelivers? ==> m.rxFull == (|s.rx| >= s.rxCap))
    case Transmit =>
      && !s.stopped && s.sent < |p.sdus| && s.offset <= |p.sdus[s.sent]|
      && s.link.fop.wait == [] && W.Open(s.link.fop.state)
    case UnitTaken => s.rx != []
  }

  ghost function After(s: Service, a: Act, p: Plan): Service
    requires Enabled(s, a, p) && 0 < p.max
  {
    match a
    case Move(m) =>
      if m.UplinkDelivers? then
        var t := RX.OnFrame(Receiver(s), true, p.lim, s.link.air[0]).0;
        s.(link := C.After(s.link, m), reasm := t.reasm, rx := t.rx)
      else
        s.(link := C.After(s.link, m))
    case Transmit =>
      var f := s.link.fop;
      var (g, resume, res) := TX.SendFrom(f, p.sdus[s.sent], s.offset, p.max);
      var given := W.Submitted(g)[Min(|W.Submitted(f)|, |W.Submitted(g)|)..];
      s.(link := s.link.(fop := g, handed := s.link.handed + given),
         sent := if Through(resume, res) then s.sent + 1 else s.sent, offset := resume, stopped := res == TX.TxUndef)
    case UnitTaken => s.(rx := s.rx[1..], taken := s.taken + [s.rx[0]])
  }

  /** The whole unit is with FOP-1, though its last segment may still wait there. */
  predicate Through(resume: nat, res: TX.TxResult) {
    res == TX.TxOk || (res == TX.TxDelay && resume == 0)
  }

  ghost predicate ValidRun(s: Service, run: seq<Act>, p: Plan)
    decreases |run|
  {
    0 < p.max && (run == [] || (Enabled(s, run[0], p) && ValidRun(After(s, run[0], p), run[1..], p)))
  }

  ghost function Final(s: Service, run: seq<Act>, p: Plan): Service
    requires ValidRun(s, run, p)
    decreases |run|
  {
    if run == [] then s else Final(After(s, run[0], p), run[1..], p)
  }

  // ---------------------------------------------------------------------------------------
  // Only type-A frames
  // ---------------------------------------------------------------------------------------

  ghost predicate AllTypeA(frames: seq<Frame>) {
    forall i :: 0 <= i < |frames| ==> !frames[i].hdr.typeB
  }

  /** The sender holds no type-B frame and is not about to build one. */
  ghost predicate OnlyTypeA(f: F.FopVars) {
    !f.hdr.typeB && AllTypeA(f.tx) && forall i :: 0 <= i < |f.sent| ==> !f.sent[i].frame.hdr.typeB
  }

  lemma LookKeepsTypeA(f: F.FopVars)
    requires OnlyTypeA(f)
    ensures OnlyTypeA(F.LookForFdu(f).0) && F.LookForFdu(f).0.hdr == f.hdr
    ensures OnlyTypeA(F.LookForDirective(f)) && F.LookForDirective(f).hdr == f.hdr
  {
    hide F.FirstMarked, F.Leading, F.WindowTaken;
  }

  lemma ActionKeepsTypeA(f: F.FopVars, a: F.Action, nr: Counter)
    requires OnlyTypeA(f)
    ensures OnlyTypeA(F.Perform(f, a, nr)) && F.Perform(f, a, nr).hdr == f.hdr
  {
    hide F.LookForFdu, F.LookForDirective, F.Leading;
    LookKeepsTypeA(F.RemoveAcked(f, nr));
    LookKeepsTypeA(F.RetryAd(f));
    LookKeepsTypeA(F.RetryBc(f));
    LookKeepsTypeA(F.RetryAd(F.RemoveAcked(f, nr)));
  }

  /** Unless a frame is prepared or a session started, the header fields are left alone and no type-B
      frame comes up. */
  lemma EventKeepsTypeA(f: F.FopVars, ev: F.FopEvent)
    requires OnlyTypeA(f) && (W.Disciplined(f, ev) || ev.ClcwArrives? || ev.Drained?)
    requires !ev.Prepared? && !ev.Requested?
    ensures OnlyTypeA(F.FopStep(f, ev)) && F.FopStep(f, ev).hdr == f.hdr && W.HandedOver(f, ev) == []
  {
    hide F.LookForFdu, F.LookForDirective, F.Perform, F.Reaction, F.ClcwEvent, F.TimerEvent, F.InRange;
    LookKeepsTypeA(f);
    match ev {
      case ClcwArrives(c) => ActionKeepsTypeA(f, F.Reaction(F.ClcwEvent(f, c), f.state), c.nr);
      case TimerExpires => ActionKeepsTypeA(f, F.Reaction(F.TimerEvent(f), f.state), 0);
      case _ =>
    }
  }

  lemma RequestKeepsTypeA(f: F.FopVars, piece: Segment)
    requires OnlyTypeA(f)
    ensures var g := F.Prepare(f, f.hdr.(seg := piece.seg), piece.data);
            OnlyTypeA(g) && OnlyTypeA(F.OnRequest(g).0)
  {
    hide F.LookForFdu;
    var g := F.Prepare(f, f.hdr.(seg := piece.seg), piece.data);
    LookKeepsTypeA(g.(wait := [F.Request(g.hdr, g.data)]));
  }

  lemma {:induction false} CallKeepsTypeA(f: F.FopVars, sdu: seq<byte>, off: nat, max: nat)
    requires OnlyTypeA(f) && 0 < max && off <= |sdu|
    ensures OnlyTypeA(TX.SendFrom(f, sdu, off, max).0)
    decreases |sdu| - off
  {
    hide F.OnRequest, OnlyTypeA;
    if off < |sdu| {
      var piece := TX.PieceAt(sdu, off, max, f.hdr.seg.mapId);
      var g := F.Prepare(f, f.hdr.(seg := piece.seg), piece.data);
      RequestKeepsTypeA(f, piece);
      var (h, notice) := F.OnRequest(g);
      CallKeepsTypeA(h, sdu, off + |piece.data|, max);
    }
  }

  lemma HeadIsTypeA(f: F.FopVars)
    requires OnlyTypeA(f) && f.tx != []
    ensures !f.tx[0].hdr.typeB
  {
  }

  ghost predicate LinkTypeA(s: C.Link) {
    OnlyTypeA(s.fop) && AllTypeA(s.air)
  }

  /** Moves other than handing over keep all traffic type-A, and the record of what was handed over. */
  lemma MoveKeepsTypeA(s: C.Link, m: C.Move, kmax: Counter)
    requires LinkTypeA(s) && C.Enabled(s, m, kmax) && (m.AtSender? ==> !m.event.Prepared? && !m.event.Requested?)
    ensures LinkTypeA(C.After(s, m))
    ensures C.After(s, m).handed == s.handed && C.After(s, m).fop.hdr == s.fop.hdr
    ensures !m.UplinkDelivers? ==> C.After(s, m).accepted == s.accepted
  {
    hide F.FopStep, W.HandedOver, R.Receive, W.Disciplined, OnlyTypeA;
    match m {
      case AtSender(ev) =>
        EventKeepsTypeA(s.fop, ev);
        assert s.handed + [] == s.handed;
      case DownlinkDelivers => EventKeepsTypeA(s.fop, F.ClcwArrives(s.down[0]));
      case Radiated =>
        EventKeepsTypeA(s.fop, F.Drained(0));
        HeadIsTypeA(s.fop);
      case _ =>
    }
  }

  // ---------------------------------------------------------------------------------------
  // A call of the sender is a run of the closed loop
  // ---------------------------------------------------------------------------------------

  /** What one segment given to the sender does to the loop. */
  function AfterSegment(link: C.Link, piece: Segment): C.Link {
    link.(fop := F.OnRequest(F.Prepare(link.fop, link.fop.hdr.(seg := piece.seg), piece.data)).0,
          handed := link.handed + [piece])
  }

  lemma SegmentMoves(link: C.Link, base: Counter, piece: Segment, kmax: Counter)
    requires TX.Ready(link.fop, base)
    ensures var m1 := C.AtSender(F.Prepared(link.fop.hdr.(seg := piece.seg), piece.data));
            && C.Enabled(link, m1, kmax)
            && var l1 := link.(fop := F.Prepare(link.fop, link.fop.hdr.(seg := piece.seg), piece.data));
            && C.After(link, m1) == l1
            && C.Enabled(l1, C.AtSender(F.Requested), kmax)
            && C.After(l1, C.AtSender(F.Requested)) == AfterSegment(link, piece)
  {
    hide F.OnRequest, F.OnClcw, F.OnTimer, F.OnDirective, F.OnResponse, W.ItemAt;
    TX.SegmentIsTaken(link.fop, base, piece);
    assert link.handed + [] == link.handed;
  }

  lemma {:induction false} TransmitIsARun(link: C.Link, base: Counter, sdu: seq<byte>, off: nat, max: nat,
                                          kmax: Counter)
    returns (run: seq<C.Move>, given: seq<Segment>)
    requires TX.Ready(link.fop, base) && 0 < max && off <= |sdu|
    ensures C.ValidRun(link, run, kmax)
    ensures var g := TX.SendFrom(link.fop, sdu, off, max).0;
            C.Final(link, run, kmax) == link.(fop := g, handed := link.handed + given)
    ensures W.Submitted(C.Final(link, run, kmax).fop) == W.Submitted(link.fop) + given
    decreases |sdu| - off
  {
    hide F.OnRequest, C.After, C.Enabled, W.Window, W.Submitted;
    run, given := [], [];
    assert link.handed + [] == link.handed && W.Submitted(link.fop) + [] == W.Submitted(link.fop);
    if off < |sdu| {
      var piece := TX.PieceAt(sdu, off, max, link.fop.hdr.seg.mapId);
      var next := off + |piece.data|;
      var hdr := link.fop.hdr.(seg := piece.seg);
      var g := F.Prepare(link.fop, hdr, piece.data);
      TX.PreparedKeepsWindow(link.fop, base, piece);
      SegmentMoves(link, base, piece, kmax);
      var m1, l1 := C.AtSender(F.Prepared(hdr, piece.data)), link.(fop := g);
      if |g.tx| >= g.txCap {
        run := [m1] + [];
        C.OneMove(link, m1, l1, [], kmax);
        assert C.Final(l1, [], kmax) == l1;
      } else {
        var l2 := AfterSegment(link, piece);
        var (h, notice) := F.OnRequest(g);
        TX.SegmentIsTaken(link.fop, base, piece);
        var rest, more := [], [];
        assert C.Final(l2, [], kmax) == l2;
        if notice == F.Accepted || notice == F.Ignored {
          rest, more := TransmitIsARun(l2, base, sdu, next, max, kmax);
          assert TX.SendFrom(link.fop, sdu, off, max) == TX.SendFrom(h, sdu, next, max);
        }
        C.OneMove(l1, C.AtSender(F.Requested), l2, rest, kmax);
        C.OneMove(link, m1, l1, [C.AtSender(F.Requested)] + rest, kmax);
        run := [m1] + ([C.AtSender(F.Requested)] + rest);
        given := [piece] + more;
        assert link.handed + [piece] + more == link.handed + given;
        assert W.Submitted(link.fop) + [piece] + more == W.Submitted(link.fop) + given;
      }
    }
  }

  // ---------------------------------------------------------------------------------------
  // What every act keeps
  // ---------------------------------------------------------------------------------------

  /** The segments not handed over yet. */
  function Remaining(s: Service, p: Plan, mapId: bv8): seq<Segment>
    requires 0 < p.max && (s.sent < |p.sdus| ==> s.offset <= |p.sdus[s.sent]|)
  {
    if s.sent < |p.sdus|
    then TX.Pieces(p.sdus[s.sent], s.offset, p.max, mapId) + AllPieces(p.sdus[s.sent + 1..], p.max, mapId)
    else []
  }

  ghost predicate HandedOk(s: Service, p: Plan, mapId: bv8)
    requires 0 < p.max
  {
    && s.sent <= |p.sdus| && (s.sent < |p.sdus| ==> s.offset <= |p.sdus[s.sent]|)
    && (if s.stopped then s.link.handed <= AllPieces(p.sdus, p.max, mapId)
        else s.link.handed + Remaining(s, p, mapId) == AllPieces(p.sdus, p.max, mapId))
  }

  /** Reassembly and what has been delivered are what the accepted segments make of them. */
  ghost predicate DeliveredOk(s: Service, lim: RX.Limits) {
    && 0 < s.rxCap && RX.RoomToFinish(Receiver(s))
    && Intake(s.reasm, Units(s)) == TakeInAll(Intake(RX.Closed, []), lim, s.link.accepted)
  }

  ghost predicate ServiceOk(s: Service, p: Plan, mapId: bv8)
    requires 0 < p.max
  {
    && LinkTypeA(s.link) && s.link.fop.hdr.seg.mapId == mapId
    && HandedOk(s, p, mapId) && DeliveredOk(s, p.lim)
  }

  /** The receiver of the loop and the TC receiver take the same step, and what the reassembly takes
      in are the accepted frames. */
  lemma FrameIsTakenIn(s: Service, m: C.Move, p: Plan)
    requires 0 < p.max && m.UplinkDelivers? && Enabled(s, Move(m), p)
    requires LinkTypeA(s.link) && DeliveredOk(s, p.lim)
    ensures var t := After(s, Move(m), p);
            DeliveredOk(t, p.lim) && Receiver(t) == RX.OnFrame(Receiver(s), true, p.lim, s.link.air[0]).0
  {
    hide R.Receive, R.CommandReadable, RX.OnFrame, RX.Reassemble, TakeInAll;
    var frame := s.link.air[0];
    RX.TypeAFrameKeepsRoom(Receiver(s), p.lim, frame);
    var t := After(s, Move(m), p);
    var (reasm, piece) := RX.Reassemble(s.reasm, p.lim, Payload(frame));
    if t.link.accepted == s.link.accepted {
      assert Units(t) == Units(s);
    } else {
      AppendOne(Intake(RX.Closed, []), p.lim, s.link.accepted, Payload(frame));
      if piece.Complete? {
        assert s.taken + s.rx + [piece.sdu] == s.taken + (s.rx + [piece.sdu]);
      }
    }
  }

  lemma MoveKeepsService(s: Service, m: C.Move, p: Plan, mapId: bv8)
    requires 0 < p.max && ServiceOk(s, p, mapId) && Enabled(s, Move(m), p)
    ensures ServiceOk(After(s, Move(m), p), p, mapId)
  {
    hide AllPieces, TakeInAll, TX.Pieces, OnlyTypeA, C.Enabled;
    MoveKeepsTypeA(s.link, m, p.kmax);
    if m.UplinkDelivers? {
      FrameIsTakenIn(s, m, p);
      hide C.After;
    } else {
      OtherMoveKeepsRoom(s.link, m, p.kmax);
      hide C.After;
    }
  }

  lemma OtherMoveKeepsRoom(s: C.Link, m: C.Move, kmax: Counter)
    requires C.Enabled(s, m, kmax) && !m.UplinkDelivers?
    ensures var f := C.After(s, m).farm; f == s.farm || (f == R.Release(s.farm) && f.state == R.Open)
  {
    hide F.FopStep, W.HandedOver, W.Disciplined;
  }

  /** The unit under way, what a call has handed over of it, and what it has left. */
  ghost predicate CallAccounts(s: Service, p: Plan, mapId: bv8, given: seq<Segment>, resume: nat, res: TX.TxResult)
    requires 0 < p.max && s.sent < |p.sdus| && s.offset <= |p.sdus[s.sent]|
  {
    var sdu := p.sdus[s.sent];
    var pieces := TX.Pieces(sdu, s.offset, p.max, mapId);
    && given <= pieces && resume <= |sdu|
    && (res != TX.TxUndef ==> given + TX.Left(sdu, resume, res, p.max, mapId) == pieces)
    && (res == TX.TxOk ==> resume == 0)
  }

  lemma CallKeepsTotal(handed: seq<Segment>, given: seq<Segment>, pieces: seq<Segment>, later: seq<Segment>,
                       left: seq<Segment>, all: seq<Segment>)
    requires handed + (pieces + later) == all && given <= pieces
    ensures handed + given <= all
    ensures given + left == pieces ==> (handed + given) + (left + later) == all
  {
    Regroup(handed, given, pieces[|given|..], later);
    assert pieces == given + pieces[|given|..];
    Regroup(handed, given, left, later);
  }

  lemma TransmitKeepsHandedOk(s: Service, t: Service, p: Plan, mapId: bv8, given: seq<Segment>, resume: nat,
                              res: TX.TxResult)
    requires 0 < p.max && HandedOk(s, p, mapId) && !s.stopped && s.sent < |p.sdus|
    requires CallAccounts(s, p, mapId, given, resume, res)
    requires t.link.handed == s.link.handed + given && t.offset == resume && t.stopped == (res == TX.TxUndef)
    requires t.sent == if Through(resume, res) then s.sent + 1 else s.sent
    ensures HandedOk(t, p, mapId)
  {
    hide TX.Pieces, AllPieces;
    var all := AllPieces(p.sdus, p.max, mapId);
    var later := AllPieces(p.sdus[s.sent + 1..], p.max, mapId);
    var left := TX.Left(p.sdus[s.sent], resume, res, p.max, mapId);
    CallKeepsTotal(s.link.handed, given, TX.Pieces(p.sdus[s.sent], s.offset, p.max, mapId), later, left, all);
    if !t.stopped {
      RemainingAfterCall(s, t, p, mapId, resume, res);
      hide Remaining, CallAccounts, TX.Left;
    }
  }

  lemma RemainingAfterCall(s: Service, t: Service, p: Plan, mapId: bv8, resume: nat, res: TX.TxResult)
    requires 0 < p.max && s.sent < |p.sdus| && resume <= |p.sdus[s.sent]| && res != TX.TxUndef
    requires (res == TX.TxOk ==> resume == 0) && t.offset == resume
    requires t.sent == if Through(resume, res) then s.sent + 1 else s.sent
    ensures Remaining(t, p, mapId)
         == TX.Left(p.sdus[s.sent], resume, res, p.max, mapId) + AllPieces(p.sdus[s.sent + 1..], p.max, mapId)
  {
    hide TX.Pieces, AllPieces;
    if t.sent > s.sent {
      NothingSentOfNext(p.sdus, t.sent, p.max, mapId);
      assert [] + AllPieces(p.sdus[t.sent..], p.max, mapId) == AllPieces(p.sdus[t.sent..], p.max, mapId);
    }
  }

  lemma Regroup<T>(a: seq<T>, b: seq<T>, c: seq<T>, d: seq<T>)
    ensures a + ((b + c) + d) == (a + b) + (c + d)
  {
  }

  lemma NothingSentOfNext(sdus: seq<seq<byte>>, n: nat, max: nat, mapId: bv8)
    requires 0 < max && n <= |sdus|
    ensures AllPieces(sdus[n..], max, mapId)
         == if n < |sdus| then TX.Pieces(sdus[n], 0, max, mapId) + AllPieces(sdus[n + 1..], max, mapId) else []
  {
    if n < |sdus| {
      assert sdus[n..][1..] == sdus[n + 1..];
    }
  }

  lemma OpenIsReady(s: C.Link, base: Counter, kmax: Counter, u: seq<nat>, d: seq<nat>)
    requires C.Invariant(s, base, kmax, u, d) && W.Open(s.fop.state) && s.fop.wait == [] && !s.fop.hdr.typeB
    ensures TX.Ready(s.fop, base)
  {
    hide C.UplinkOk, C.DownlinkOk;
  }

  lemma TransmitKeepsService(s: Service, base: Counter, u: seq<nat>, d: seq<nat>, p: Plan, mapId: bv8)
      returns (u': seq<nat>, d': seq<nat>)
    requires 0 < p.max && C.Invariant(s.link, base, p.kmax, u, d) && ServiceOk(s, p, mapId)
    requires Enabled(s, Transmit, p)
    ensures var t := After(s, Transmit, p);
            C.Invariant(t.link, base, p.kmax, u', d') && ServiceOk(t, p, mapId)
  {
    hide C.After, C.Enabled, W.Window, W.Submitted, TX.SendFrom, TX.Pieces, TakeInAll, AllPieces, HandedOk;
    var f, sdu := s.link.fop, p.sdus[s.sent];
    OpenIsReady(s.link, base, p.kmax, u, d);
    CallKeepsTypeA(f, sdu, s.offset, p.max);
    hide C.Invariant, OnlyTypeA;
    var run, given := TransmitIsARun(s.link, base, sdu, s.offset, p.max, p.kmax);
    var same := TX.CallHandsOverPieces(f, base, sdu, s.offset, p.max);
    var (g, resume, res) := TX.SendFrom(f, sdu, s.offset, p.max);
    assert W.Submitted(g)[|W.Submitted(f)|..] == given == same;
    var t := After(s, Transmit, p);
    TransmitKeepsHandedOk(s, t, p, mapId, given, resume, res);
    u', d' := C.RunKeepsInvariant(s.link, base, p.kmax, u, d, run);
    assert t.link == C.Final(s.link, run, p.kmax);
  }

  lemma UnitTakenKeepsService(s: Service, p: Plan, mapId: bv8)
    requires 0 < p.max && ServiceOk(s, p, mapId) && s.rx != []
    ensures ServiceOk(After(s, UnitTaken, p), p, mapId)
  {
    hide AllPieces, TX.Pieces, TakeInAll;
    assert s.taken + [s.rx[0]] + s.rx[1..] == s.taken + s.rx;
  }

  lemma {:induction false} RunKeepsService(s: Service, base: Counter, u: seq<nat>, d: seq<nat>, run: seq<Act>,
                                           p: Plan, mapId: bv8)
      returns (u': seq<nat>, d': seq<nat>)
    requires ValidRun(s, run, p) && C.Invariant(s.link, base, p.kmax, u, d) && ServiceOk(s, p, mapId)
    ensures var t := Final(s, run, p);
            C.Invariant(t.link, base, p.kmax, u', d') && ServiceOk(t, p, mapId)
    decreases |run|
  {
    hide C.Invariant, ServiceOk;
    u', d' := u, d;
    if run != [] {
      match run[0] {
        case Move(m) =>
          u', d' := C.MoveKeepsInvariant(s.link, base, p.kmax, u, d, m);
          MoveKeepsService(s, m, p, mapId);
        case Transmit => u', d' := TransmitKeepsService(s, base, u, d, p, mapId);
        case UnitTaken => UnitTakenKeepsService(s, p, mapId);
      }
      hide After, Enabled;
      u', d' := RunKeepsService(After(s, run[0], p), base, u', d', run[1..], p, mapId);
    }
  }

  /** A service just started: an open session of type-A frames, and nothing under way or received. */
  ghost predicate Started(s: Service, kmax: Counter) {
    && C.JustOpened(s.link, kmax) && !s.link.fop.hdr.typeB
    && s.sent == 0 && s.offset == 0 && !s.stopped
    && s.reasm == RX.Closed && s.rx == [] && s.taken == [] && 0 < s.rxCap
  }

  lemma StartedIsOk(s: Service, p: Plan)
    requires Started(s, p.kmax) && 0 < p.max
    ensures C.Invariant(s.link, s.link.farm.vr, p.kmax, [], [])
    ensures ServiceOk(s, p, s.link.fop.hdr.seg.mapId)
  {
    C.OpenedInvariant(s.link, p.kmax);
    TakeInNone(Intake(RX.Closed, []), p.lim);
    NothingSentOfNext(p.sdus, 0, p.max, s.link.fop.hdr.seg.mapId);
    assert p.sdus[0..] == p.sdus;
    hide C.Invariant, AllPieces, TX.Pieces, TakeInAll;
  }

  /** Whatever the channels lose and whenever the receiver's user empties its queue, the units
      delivered are at every moment a prefix of the units given to the sender, each whole and
      unchanged. */
  lemma UnitsArriveInOrder(s: Service, run: seq<Act>, p: Plan) returns (k: nat)
    requires Started(s, p.kmax) && Sensible(p) && ValidRun(s, run, p)
    ensures k <= |p.sdus| && Units(Final(s, run, p)) == p.sdus[..k]
  {
    hide After, Enabled, C.JustOpened;
    var mapId := s.link.fop.hdr.seg.mapId;
    StartedIsOk(s, p);
    var u, d := RunKeepsService(s, s.link.farm.vr, [], [], run, p, mapId);
    var t := Final(s, run, p);
    hide C.UplinkOk, C.SessionOk, AllPieces, TX.Pieces, TakeInAll, Final, ValidRun, LinkTypeA;
    assert t.link.accepted <= t.link.handed <= AllPieces(p.sdus, p.max, mapId);
    k := PrefixDelivers(Intake(RX.Closed, []), p.sdus, p.max, mapId, p.lim, t.link.accepted);
    assert [] + p.sdus[..k] == p.sdus[..k];
  }

  lemma {:induction false} AllPiecesAppend(a: seq<seq<byte>>, b: seq<seq<byte>>, max: nat, mapId: bv8)
    requires 0 < max
    ensures AllPieces(a + b, max, mapId) == AllPieces(a, max, mapId) + AllPieces(b, max, mapId)
    decreases |a|
  {
    hide TX.Pieces;
    if a == [] {
      assert a + b == b;
    } else {
      AllPiecesAppend(a[1..], b, max, mapId);
      assert (a + b)[1..] == a[1..] + b;
      var p := TX.Pieces(a[0], 0, max, mapId);
      assert p + (AllPieces(a[1..], max, mapId) + AllPieces(b, max, mapId))
          == p + AllPieces(a[1..], max, mapId) + AllPieces(b, max, mapId);
    }
  }

  lemma SettledMeansAccepted(s: C.Link, base: Counter, kmax: Counter, u: seq<nat>, d: seq<nat>)
    requires C.Invariant(s, base, kmax, u, d) && !W.Over(s.fop) && s.fop.sent == [] && s.fop.wait == []
    ensures s.accepted == s.fop.log == s.handed
  {
    hide C.UplinkOk, C.DownlinkOk, W.Window;
  }

  lemma SettledHandedOver(s: Service, p: Plan, mapId: bv8)
    requires 0 < p.max && HandedOk(s, p, mapId) && s.offset == 0 && !s.stopped
    ensures s.link.handed == AllPieces(p.sdus[..s.sent], p.max, mapId)
  {
    NothingSentOfNext(p.sdus, s.sent, p.max, mapId);
    assert p.sdus == p.sdus[..s.sent] + p.sdus[s.sent..];
    AllPiecesAppend(p.sdus[..s.sent], p.sdus[s.sent..], p.max, mapId);
    hide AllPieces, TX.Pieces;
    var rest := AllPieces(p.sdus[s.sent..], p.max, mapId);
    var mine := AllPieces(p.sdus[..s.sent], p.max, mapId);
    assert s.link.handed + rest == mine + rest;
    assert |s.link.handed| == |mine|;
    assert s.link.handed == (s.link.handed + rest)[..|mine|];
  }

  /** The sender has nothing outstanding, nothing waiting and no unit under way. */
  ghost predicate Settled(s: Service) {
    && !W.Over(s.link.fop) && s.link.fop.sent == [] && s.link.fop.wait == []
    && s.offset == 0 && !s.stopped
  }

  /** Then every unit given to it has been delivered, and no reassembly is left open. */
  lemma AcknowledgedIsDelivered(s: Service, run: seq<Act>, p: Plan)
    requires Started(s, p.kmax) && Sensible(p) && ValidRun(s, run, p)
    requires Settled(Final(s, run, p))
    ensures var t := Final(s, run, p);
            t.sent <= |p.sdus| && Units(t) == p.sdus[..t.sent] && t.reasm == RX.Closed
  {
    hide After, Enabled, C.JustOpened, C.Invariant, AllPieces, TX.Pieces, TakeInAll;
    var mapId := s.link.fop.hdr.seg.mapId;
    StartedIsOk(s, p);
    var u, d := RunKeepsService(s, s.link.farm.vr, [], [], run, p, mapId);
    var t := Final(s, run, p);
    hide Final, ValidRun, LinkTypeA;
    SettledMeansAccepted(t.link, s.link.farm.vr, p.kmax, u, d);
    SettledHandedOver(t, p, mapId);
    var k := PrefixDelivers(Intake(RX.Closed, []), p.sdus[..t.sent], p.max, mapId, p.lim, t.link.accepted);
    assert [] + p.sdus[..t.sent][..k] == p.sdus[..t.sent];
  }
}
