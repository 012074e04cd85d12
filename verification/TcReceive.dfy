/** The TC receiver (src/osdlp_tc.c:184-340): delimiting, the validation check, FARM-1, and the
    reassembly of segmented service data units. */
module TcReceive {
  import opened Octets
  import opened CopTypes
  import TF = TcFrame
  import R = Farm
  import Crc

  /** The segment fields of the frame structure of a mission without segment headers. */
  const LEFT_OVER := SegHeader(Cont, 0)

  datatype RxResult = RxOk | FrameLenErr | FrameValErr | QueueErr | CopErr

  // ---------------------------------------------------------------------------------------
  // Reassembly
  // ---------------------------------------------------------------------------------------

  /** A reassembly in progress and the octets gathered so far, or none. */
  datatype Reasm = Closed | Gathering(octets: seq<byte>)

  datatype Limits = Limits(maxData: nat, maxSdu: nat)

  datatype Piece = Refused | Kept | Complete(sdu: seq<byte>)

  /** What one accepted segment does. A refused segment drops whatever was gathered, except that an
      oversized unsegmented one leaves it alone. */
  function Reassemble(r: Reasm, lim: Limits, s: Segment): (Reasm, Piece) {
    match s.seg.flag
    case Unseg =>
      if |s.data| > lim.maxData then (r, Refused) else (Closed, Complete(s.data))
    case First =>
      if r.Gathering? || |s.data| > lim.maxData then (Closed, Refused) else (Gathering(s.data), Kept)
    case Last =>
      if r.Closed? || |r.octets| + |s.data| > lim.maxSdu then (Closed, Refused)
          else (Closed, Complete(r.octets + s.data))
    case Cont =>
      if r.Closed? || |r.octets| + |s.data| > lim.maxSdu then (Closed, Refused)
          else (Gathering(r.octets + s.data), Kept)
  }

  /** Without segment headers every frame is a whole service data unit. */
  function TakeWhole(lim: Limits, s: Segment): (Reasm, Piece) {
    if |s.data| > lim.maxSdu then (Closed, Refused) else (Closed, Complete(s.data))
  }

  // ---------------------------------------------------------------------------------------
  // One frame
  // ---------------------------------------------------------------------------------------

  datatype RxState = RxState(farm: R.FarmVars, reasm: Reasm, rx: seq<seq<byte>>, rxCap: nat)

  /** A complete service data unit goes to the receive queue; one of the expedited service displaces
      the oldest entry of a full queue. */
  function Deliver(st: RxState, sdu: seq<byte>, priority: bool): (RxState, RxResult)
    requires st.rxCap > 0
  {
    if |st.rx| < st.rxCap then (st.(rx := st.rx + [sdu]), RxOk)
    else if priority && st.rx != [] then (st.(rx := [sdu] + st.rx[1..]), RxOk)
    else (st, QueueErr)
  }

  function Gather(st: RxState, hasSeg: bool, lim: Limits, s: Segment, priority: bool): (RxState, RxResult)
    requires st.rxCap > 0
  {
    var (reasm, piece) := if hasSeg then Reassemble(st.reasm, lim, s) else TakeWhole(lim, s);
    var st' := st.(reasm := reasm);
    match piece
    case Refused => (st', CopErr)
    case Kept => (st', RxOk)
    case Complete(sdu) => Deliver(st', sdu, priority)
  }

  /** A valid frame passes FARM-1, and if accepted goes on to reassembly. */
  function OnFrame(st: RxState, hasSeg: bool, lim: Limits, frame: Frame): (RxState, RxResult)
    requires st.rxCap > 0 && R.CommandReadable(frame)
  {
    var (g, r) := R.Receive(st.farm, frame, |st.rx| >= st.rxCap);
    var st' := st.(farm := g);
    match r
    case Enq => Gather(st', hasSeg, lim, Payload(frame), false)
    case PriorityEnq => Gather(st', hasSeg, lim, Payload(frame), true)
    case Error => (st'.(reasm := Closed), CopErr)
    case Ok => (st', RxOk)
    case Discard => (st', CopErr)
  }

  /** A type-A frame is accepted only when the receive queue has room, so no unit it completes is
      ever refused by the queue. */
  lemma AcceptedUnitHasRoom(st: RxState, hasSeg: bool, lim: Limits, frame: Frame)
    requires st.rxCap > 0 && !frame.hdr.typeB && R.CommandReadable(frame)
    ensures var (t, res) := OnFrame(st, hasSeg, lim, frame);
            && res != QueueErr
            && st.rx <= t.rx && |t.rx| <= |st.rx| + 1 && (t.rx != st.rx ==> |t.rx| <= st.rxCap)
  {
    R.DispatchOnCircle(frame.ns, st.farm.vr, st.farm.w);
    hide R.RegionTaken, Reassemble;
  }

  /** While a unit is being gathered the receiver is not waiting and its queue has room for it. */
  predicate RoomToFinish(st: RxState) {
    st.reasm.Gathering? ==> st.farm.state != R.Wait && |st.rx| < st.rxCap
  }

  /** Type-A frames keep it so. They reach reassembly exactly when FARM-1 accepts them, and otherwise
      leave a unit under way alone. */
  lemma TypeAFrameKeepsRoom(st: RxState, lim: Limits, frame: Frame)
    requires st.rxCap > 0 && !frame.hdr.typeB && R.CommandReadable(frame) && RoomToFinish(st)
    ensures var t := OnFrame(st, true, lim, frame).0;
            var (g, r) := R.Receive(st.farm, frame, |st.rx| >= st.rxCap);
            var (reasm, piece) := Reassemble(st.reasm, lim, Payload(frame));
            && RoomToFinish(t)
            && t == st.(farm := g, reasm := if r == R.Enq then reasm else st.reasm,
                        rx := if r == R.Enq && piece.Complete? then st.rx + [piece.sdu] else st.rx)
  {
    R.DispatchOnCircle(frame.ns, st.farm.vr, st.farm.w);
    hide R.RegionTaken;
  }

  /** The octets a frame adds up to with those gathered before it, if it carries on a unit. */
  function Whole(st: RxState, hasSeg: bool, frame: Frame): seq<byte> {
    if hasSeg && frame.hdr.seg.flag in {Cont, Last} && st.reasm.Gathering? then st.reasm.octets + frame.data
    else frame.data
  }

  /** What the result tells. A data frame ends in RxOk exactly if its octets are kept: with those gathered
      before they are under way, or have joined the receive queue, where a unit of the expedited service
      takes the oldest place if all are taken. A command ends in RxOk exactly if it is one of the two
      known. In all other cases the result is a COP error and nothing is delivered; what was gathered
      stays or is dropped. */
  lemma ResultTells(st: RxState, hasSeg: bool, lim: Limits, frame: Frame)
    requires 0 < st.rxCap && |st.rx| <= st.rxCap && R.CommandReadable(frame)
    ensures var (t, res) := OnFrame(st, hasSeg, lim, frame);
            var all := Whole(st, hasSeg, frame);
            && (res == RxOk || res == CopErr) && t.rxCap == st.rxCap && |t.rx| <= t.rxCap
            && (frame.hdr.typeB && frame.hdr.command ==>
                  t.rx == st.rx && (res == RxOk <==> R.IsUnlock(frame) || R.IsSetVr(frame))
                  && (res == RxOk ==> t.reasm == st.reasm))
            && (res == RxOk && !(frame.hdr.typeB && frame.hdr.command) ==>
                  if hasSeg && frame.hdr.seg.flag in {First, Cont} then t.reasm == Gathering(all) && t.rx == st.rx
                  else t.reasm == Closed && t.rx == if |st.rx| < st.rxCap then st.rx + [all] else [all] + st.rx[1..])
            && (res == CopErr ==> t.rx == st.rx && (t.reasm == st.reasm || t.reasm == Closed))
  {
    R.DispatchOnCircle(frame.ns, st.farm.vr, st.farm.w);
    hide R.RegionTaken, R.ConditionE3, R.ConditionE4;
  }

  /** A unit of the expedited service that needs no segments, and is no longer than the receiver takes, is
      delivered in every state of the receiver, whether or not there is room. */
  lemma ExpeditedIsDelivered(st: RxState, hasSeg: bool, lim: Limits, frame: Frame)
    requires 0 < st.rxCap && frame.hdr.typeB && !frame.hdr.command
    requires if hasSeg then frame.hdr.seg.flag == Unseg && |frame.data| <= lim.maxData else |frame.data| <= lim.maxSdu
    requires |st.rx| <= st.rxCap
    ensures R.CommandReadable(frame)
    ensures var rx := if |st.rx| < st.rxCap then st.rx + [frame.data] else [frame.data] + st.rx[1..];
            OnFrame(st, hasSeg, lim, frame) == (RxState(R.CountB(st.farm), Closed, rx, st.rxCap), RxOk)
  {
    hide R.RegionTaken, R.TypeA;
  }

  // ---------------------------------------------------------------------------------------
  // Received octets
  // ---------------------------------------------------------------------------------------

  predicate Delimited(s: seq<byte>, length: nat)
    requires |s| >= 4
  {
    TF.LengthField(s[2], s[3]) + 1 <= length && length >= 5
  }

  /** The buffer holds every octet the source looks at: a delimited frame is not shorter than its
      headers, and a valid control command is long enough to be recognised. */
  predicate Sound(cfg: TF.Config, s: seq<byte>, length: nat) {
    && |s| >= 4 && length <= |s|
    && (Delimited(s, length) ==>
          TF.Complete(cfg, s) && (TF.Validates(cfg, s) ==> R.CommandReadable(TF.FrameFrom(cfg, s, LEFT_OVER))))
  }

  function OnOctets(st: RxState, cfg: TF.Config, lim: Limits, s: seq<byte>, length: nat): (RxState, RxResult)
    requires st.rxCap > 0 && Sound(cfg, s, length)
  {
    if !Delimited(s, length) then (st, FrameLenErr)
    else if !TF.Validates(cfg, s) then (st, FrameValErr)
    else OnFrame(st, cfg.hasSeg, lim, TF.FrameFrom(cfg, s, LEFT_OVER))
  }

  /** Without segment headers the segment fields play no part. */
  lemma SegmentFieldsIgnored(st: RxState, lim: Limits, frame: Frame, seg: SegHeader)
    requires st.rxCap > 0 && R.CommandReadable(frame)
    ensures var other := frame.(hdr := frame.hdr.(seg := seg));
            R.CommandReadable(other) && OnFrame(st, false, lim, other) == OnFrame(st, false, lim, frame)
  {
    hide R.RegionTaken;
  }

  /** The octets of a frame, received whole, do what the frame does, with or without segment header. */
  lemma FrameArrivesAsSent(st: RxState, cfg: TF.Config, lim: Limits, vcid: bv8, frame: Frame, tail: seq<byte>)
    requires st.rxCap > 0 && TF.Mission(cfg, vcid) && TF.Sendable(cfg, frame) && R.CommandReadable(frame)
    ensures var s := TF.Wire(cfg, vcid, frame);
            && Sound(cfg, s + tail, |s|)
            && OnOctets(st, cfg, lim, s + tail, |s|) == OnFrame(st, cfg.hasSeg, lim, frame)
  {
    SegmentFieldsIgnored(st, lim, frame, LEFT_OVER);
    hide TF.Validates, TF.LengthField, OnFrame, TF.FrameFrom, R.CommandReadable;
    TF.WireRoundTrip(cfg, vcid, frame, tail, LEFT_OVER);
    TF.WireLength(cfg, vcid, frame, tail);
  }

  /** Received in part they do nothing. */
  lemma CutShortIsIgnored(st: RxState, cfg: TF.Config, lim: Limits, vcid: bv8, frame: Frame, k: nat)
    requires st.rxCap > 0 && TF.Mission(cfg, vcid) && TF.Sendable(cfg, frame)
    requires k < |TF.Wire(cfg, vcid, frame)|
    ensures var s := TF.Wire(cfg, vcid, frame);
            Sound(cfg, s, k) && OnOctets(st, cfg, lim, s, k) == (st, FrameLenErr)
  {
    hide TF.Validates, TF.LengthField, OnFrame, TF.FrameFrom, R.CommandReadable, TF.Wire;
    TF.WireLength(cfg, vcid, frame, []);
    assert TF.Wire(cfg, vcid, frame) + [] == TF.Wire(cfg, vcid, frame);
  }

  /** Nor do fewer than five octets, whatever they are. */
  lemma TooShortIsIgnored(st: RxState, cfg: TF.Config, lim: Limits, s: seq<byte>, length: nat)
    requires st.rxCap > 0 && 4 <= |s| && length <= |s| && length < 5
    ensures Sound(cfg, s, length) && OnOctets(st, cfg, lim, s, length) == (st, FrameLenErr)
  {
    hide TF.Validates, TF.LengthField, OnFrame, TF.FrameFrom, R.CommandReadable;
  }

  /** Sent by another mission, with the same layout, they do nothing, and only then does the validation
      check fail. */
  lemma ForeignIsIgnoredExactly(st: RxState, cfg: TF.Config, other: TF.Config, lim: Limits, vcid: bv8, frame: Frame)
    requires st.rxCap > 0 && TF.Mission(cfg, vcid) && TF.Mission(other, vcid) && TF.Sendable(cfg, frame)
    requires cfg.hasCrc == other.hasCrc && cfg.hasSeg == other.hasSeg && R.CommandReadable(frame)
    ensures var s := TF.Wire(other, vcid, frame);
            && Sound(cfg, s, |s|)
            && (cfg.version != other.version || cfg.scid != other.scid ==>
                  OnOctets(st, cfg, lim, s, |s|) == (st, FrameValErr))
            && (OnOctets(st, cfg, lim, s, |s|).1 == FrameValErr ==>
                  cfg.version != other.version || cfg.scid != other.scid)
  {
    hide TF.LengthField, OnFrame, R.CommandReadable, TF.Wire, TF.FrameFrom, TF.PrimaryOf, TF.SegOctetOf;
    var s := TF.Wire(other, vcid, frame);
    assert s + [] == s;
    TF.WireLength(other, vcid, frame, []);
    TF.WireSays(other, vcid, frame);
    if cfg.version == other.version && cfg.scid == other.scid {
      assert cfg == other;
      FrameArrivesAsSent(st, cfg, lim, vcid, frame, []);
      NoFrameFails(st, cfg.hasSeg, lim, frame);
    }
  }

  lemma NoFrameFails(st: RxState, hasSeg: bool, lim: Limits, frame: Frame)
    requires st.rxCap > 0 && R.CommandReadable(frame)
    ensures OnFrame(st, hasSeg, lim, frame).1 != FrameValErr
  {
    hide R.Receive, Reassemble;
  }

  /** Corrupted by a burst of up to sixteen bits outside the length field they do nothing at all. */
  lemma CorruptionIsIgnored(st: RxState, cfg: TF.Config, lim: Limits, vcid: bv8, frame: Frame, received: seq<byte>,
                            k: nat, width: nat)
    requires st.rxCap > 0 && TF.Mission(cfg, vcid) && TF.Sendable(cfg, frame) && cfg.hasCrc
    requires var s := TF.Wire(cfg, vcid, frame);
             && Crc.DifferInBurst(s, received, k, width) && width <= 16 && s != received
             && TF.LengthField(s[2], s[3]) == TF.LengthField(received[2], received[3])
    ensures Sound(cfg, received, |received|)
    ensures OnOctets(st, cfg, lim, received, |received|) == (st, FrameValErr)
  {
    hide TF.Validates, TF.LengthField, OnFrame, TF.FrameFrom, R.CommandReadable, Crc.DifferInBurst;
    TF.CorruptedFrameIsLost(cfg, vcid, frame, received, k, width);
    TF.WireLength(cfg, vcid, frame, []);
    TF.SameLength(TF.Wire(cfg, vcid, frame), received, k, width);
    assert TF.Wire(cfg, vcid, frame) + [] == TF.Wire(cfg, vcid, frame);
  }

  // ---------------------------------------------------------------------------------------
  // The receiver as it is programmed
  // ---------------------------------------------------------------------------------------

  class TcReceiver {
    const cfg: TF.Config
    const maxDataLen: nat
    const maxSduLen: nat
    const farm: R.FarmUnit
    const buffer: array<byte>
    var bufferedLength: nat
    var loopOpen: bool
    const seg: SegHeader
    var rx: seq<seq<byte>>
    const rxCap: nat

    /** The utility buffer holds a whole service data unit. */
    ghost predicate Valid()
      reads this, farm
    {
      && maxSduLen <= buffer.Length && maxDataLen <= buffer.Length && 0 < rxCap
      && (loopOpen ==> bufferedLength <= buffer.Length)
      && R.Configured(farm.Vars())
    }

    ghost function Gathered(): Reasm
      requires Valid()
      reads this, farm, buffer
    {
      if loopOpen then Gathering(buffer[..bufferedLength]) else Closed
    }

    ghost function State(): RxState
      requires Valid()
      reads this, farm, buffer
    {
      RxState(farm.Vars(), Gathered(), rx, rxCap)
    }

    function Lim(): Limits {
      Limits(maxDataLen, maxSduLen)
    }

    /** `osdlp_tc_init`, with the FARM already prepared. */
    constructor (cfg: TF.Config, maxData: nat, maxSdu: nat, farm: R.FarmUnit, util: array<byte>, cap: nat)
      requires maxSdu <= util.Length && maxData <= util.Length && 0 < cap && R.Configured(farm.Vars())
      ensures Valid() && State() == RxState(farm.Vars(), Closed, [], cap)
      ensures Lim() == Limits(maxData, maxSdu) && this.cfg == cfg && buffer == util && this.farm == farm
          && seg == LEFT_OVER
    {
      this.cfg, maxDataLen, maxSduLen, this.farm, buffer := cfg, maxData, maxSdu, farm, util;
      bufferedLength, loopOpen, rx, rxCap, seg := 0, false, [], cap, LEFT_OVER;
    }

    method RxEnqueue(sdu: seq<byte>) returns (ok: bool)
      requires Valid()
      modifies this`rx
      ensures ok == (|old(rx)| < rxCap) && rx == if ok then old(rx) + [sdu] else old(rx)
    {
      ok := |rx| < rxCap;
      if ok { rx := rx + [sdu]; }
    }

    method RxEnqueueNow(sdu: seq<byte>)
      requires Valid()
      modifies this`rx
      ensures rx == if |old(rx)| < rxCap then old(rx) + [sdu] else [sdu] + old(rx)[1..]
    {
      if |rx| < rxCap { rx := rx + [sdu]; } else { rx := [sdu] + rx[1..]; }
    }

    method Enqueue(sdu: seq<byte>, priority: bool) returns (res: RxResult)
      requires Valid()
      modifies this`rx
      ensures Valid() && (State(), res) == Deliver(old(State()), sdu, priority)
    {
      if !priority {
        var ok := RxEnqueue(sdu);
        res := if ok then RxOk else QueueErr;
      } else {
        RxEnqueueNow(sdu);
        res := RxOk;
      }
    }

    method HandleUnsegmented(frame: Frame, priority: bool) returns (res: RxResult)
      requires Valid() && frame.hdr.seg.flag == Unseg
      modifies this`bufferedLength, this`loopOpen, this`rx, buffer
      ensures Valid() && (State(), res) == Gather(old(State()), true, Lim(), Payload(frame), priority)
    {
      if |frame.data| > maxDataLen {
        return CopErr;
      }
      CopyTo(buffer, 0, frame.data);
      bufferedLength := 0;
      loopOpen := false;
      res := Enqueue(frame.data, priority);
    }

    method HandleFirst(frame: Frame, priority: bool) returns (res: RxResult)
      requires Valid() && frame.hdr.seg.flag == First
      modifies this`bufferedLength, this`loopOpen, this`rx, buffer
      ensures Valid() && (State(), res) == Gather(old(State()), true, Lim(), Payload(frame), priority)
    {
      if loopOpen {
        bufferedLength := 0;
        loopOpen := false;
        return CopErr;
      }
      bufferedLength := |frame.data|;
      if |frame.data| > maxDataLen {
        return CopErr;
      }
      CopyTo(buffer, 0, frame.data);
      assert old(buffer[..0]) + frame.data == frame.data;
      loopOpen := true;
      res := RxOk;
    }

    method HandleLast(frame: Frame, priority: bool) returns (res: RxResult)
      requires Valid() && frame.hdr.seg.flag == Last
      modifies this`bufferedLength, this`loopOpen, this`rx, buffer
      ensures Valid() && (State(), res) == Gather(old(State()), true, Lim(), Payload(frame), priority)
    {
      if !loopOpen {
        bufferedLength := 0;
        return CopErr;
      }
      if |frame.data| + bufferedLength > maxSduLen {
        bufferedLength := 0;
        loopOpen := false;
        return CopErr;
      }
      CopyTo(buffer, bufferedLength, frame.data);
      var sdu := buffer[..bufferedLength + |frame.data|];
      loopOpen := false;
      res := Enqueue(sdu, priority);
    }

    method HandleContinuation(frame: Frame, priority: bool) returns (res: RxResult)
      requires Valid() && frame.hdr.seg.flag == Cont
      modifies this`bufferedLength, this`loopOpen, this`rx, buffer
      ensures Valid() && (State(), res) == Gather(old(State()), true, Lim(), Payload(frame), priority)
    {
      if !loopOpen {
        bufferedLength := 0;
        return CopErr;
      }
      if |frame.data| + bufferedLength > maxSduLen {
        bufferedLength := 0;
        loopOpen := false;
        return CopErr;
      }
      CopyTo(buffer, bufferedLength, frame.data);
      bufferedLength := bufferedLength + |frame.data|;
      res := RxOk;
    }

    method HandleSegment(frame: Frame, priority: bool) returns (res: RxResult)
      requires Valid()
      modifies this`bufferedLength, this`loopOpen, this`rx, buffer
      ensures Valid() && (State(), res) == Gather(old(State()), true, Lim(), Payload(frame), priority)
    {
      hide Gather;
      match frame.hdr.seg.flag {
        case Unseg => res := HandleUnsegmented(frame, priority);
        case First => res := HandleFirst(frame, priority);
        case Last => res := HandleLast(frame, priority);
        case Cont => res := HandleContinuation(frame, priority);
      }
    }

    method HandleWhole(frame: Frame, priority: bool) returns (res: RxResult)
      requires Valid()
      modifies this`bufferedLength, this`loopOpen, this`rx, buffer
      ensures Valid() && (State(), res) == Gather(old(State()), false, Lim(), Payload(frame), priority)
    {
      if |frame.data| > maxSduLen {
        bufferedLength := 0;
        loopOpen := false;
        return CopErr;
      }
      CopyTo(buffer, 0, frame.data);
      bufferedLength := 0;
      loopOpen := false;
      res := Enqueue(frame.data, priority);
    }

    method HandleFrame(frame: Frame) returns (res: RxResult)
      requires Valid() && R.CommandReadable(frame)
      modifies this`bufferedLength, this`loopOpen, this`rx, buffer, farm
      ensures Valid() && (State(), res) == OnFrame(old(State()), cfg.hasSeg, Lim(), frame)
    {
      hide R.Receive, R.CommandReadable;
      var farmRet := farm.Farm1(frame, |rx| >= rxCap);
      if farmRet == R.Enq || farmRet == R.PriorityEnq {
        if cfg.hasSeg {
          res := HandleSegment(frame, farmRet == R.PriorityEnq);
        } else {
          res := HandleWhole(frame, farmRet == R.PriorityEnq);
        }
      } else if farmRet == R.Error {
        bufferedLength := 0;
        loopOpen := false;
        res := CopErr;
      } else {
        res := if farmRet == R.Ok then RxOk else CopErr;
      }
    }

    /** `osdlp_tc_receive` */
    method Receive(rxBuffer: array<byte>, length: nat) returns (res: RxResult)
      requires Valid() && rxBuffer != buffer && Sound(cfg, rxBuffer[..], length) && seg == LEFT_OVER
      modifies this`bufferedLength, this`loopOpen, this`rx, buffer, farm
      ensures Valid() && (State(), res) == OnOctets(old(State()), cfg, Lim(), old(rxBuffer[..]), length)
    {
      hide TF.PrimaryOf, TF.SegOctetOf, TF.LengthField, TF.Validates, R.CommandReadable, OnFrame;
      var frameLen := TF.LengthField(rxBuffer[2], rxBuffer[3]);
      if frameLen + 1 > length || length < 5 {
        return FrameLenErr;
      }
      var u := TF.Unpack(cfg, rxBuffer);
      var valid := TF.FrameValidationCheck(cfg, u, rxBuffer);
      if !valid {
        return FrameValErr;
      }
      var hdr := match u.seg case Some(o) => SegHeader(TF.FlagOf(o.flag), o.mapId) case None => seg;
      var frame := Frame(Header(u.p.bypass == 1, u.p.ctrl == 1, hdr), u.seqNum as int,
                         rxBuffer[u.dataFrom..u.dataFrom + u.dataLen]);
      assert rxBuffer[u.dataFrom..u.dataFrom + u.dataLen] == rxBuffer[..][u.dataFrom..u.dataFrom + u.dataLen];
      assert frame == TF.FrameFrom(cfg, rxBuffer[..], LEFT_OVER);
      res := HandleFrame(frame);
    }
  }
}
