/** Type-A and type-B frames on one TC channel: they share one reassembly, and what that does to the
    units of both services. TcService.dfy proves the service of a channel that carries type-A frames only. */
module TcShared {
  import opened Octets
  import opened CopTypes
  import R = Farm
  import S = TcService
  import opened TcReceive
  import TX = TcTransmit

  // ---------------------------------------------------------------------------------------
  // A waiting receiver
  // ---------------------------------------------------------------------------------------

  /** A type-A frame that is not accepted drops the unit under way exactly when it is the next in
      sequence, the receiver is waiting, and its queue has got room behind its back. */
  lemma WaitErrorExactly(st: RxState, lim: Limits, frame: Frame)
    requires st.rxCap > 0 && !frame.hdr.typeB && R.CommandReadable(frame) && st.reasm.Gathering?
    ensures var (t, res) := OnFrame(st, true, lim, frame);
            var early := st.farm.state == R.Wait && frame.ns == st.farm.vr && |st.rx| < st.rxCap;
            && (early ==> t == st.(reasm := Closed) && res == CopErr)
            && (t.farm.vr == st.farm.vr ==> (t.reasm != st.reasm <==> early))
  {
    R.DispatchOnCircle(frame.ns, st.farm.vr, st.farm.w);
    hide R.RegionTaken;
  }

  /** It makes no difference to a segment whether a unit was under way before it. */
  predicate Indifferent(r: Reasm, lim: Limits, s: Segment) {
    || r.Closed?
    || (match s.seg.flag
        case Unseg => |s.data| <= lim.maxData
        case First => |s.data| > lim.maxData
        case _ => |r.octets| + |s.data| > lim.maxSdu)
  }

  /** The frame comes again after the release and is accepted. That it came too early once is not
      noticed exactly when its segment does not build on the unit under way. */
  lemma EarlyFrameUnnoticedExactly(st: RxState, lim: Limits, frame: Frame)
    requires !frame.hdr.typeB && R.CommandReadable(frame) && R.Configured(st.farm)
    requires st.farm.state == R.Wait && frame.ns == st.farm.vr && |st.rx| < st.rxCap
    ensures var early := OnFrame(st, true, lim, frame).0;
            var twice := OnFrame(early.(farm := R.Release(early.farm)), true, lim, frame).0;
            var once := OnFrame(st.(farm := R.Release(st.farm)), true, lim, frame).0;
            && twice.farm == once.farm && once.farm.vr == Next(st.farm.vr)
            && (twice == once <==> Indifferent(st.reasm, lim, Payload(frame)))
  {
    R.DispatchOnCircle(frame.ns, st.farm.vr, st.farm.w);
    hide R.RegionTaken;
  }

  datatype RxEvent = Arrives(frame: Frame) | Released | Taken

  predicate Readable(ev: RxEvent) {
    ev.Arrives? ==> R.CommandReadable(ev.frame)
  }

  /** What happens at the receiver: frames arrive, a buffer is released, the user takes a unit. */
  function OnEvent(st: RxState, lim: Limits, ev: RxEvent): (t: RxState)
    requires st.rxCap > 0 && Readable(ev)
    ensures t.rxCap == st.rxCap
  {
    match ev
    case Arrives(frame) => OnFrame(st, true, lim, frame).0
    case Released => st.(farm := R.Release(st.farm))
    case Taken => if st.rx == [] then st else st.(rx := st.rx[1..])
  }

  function Run(st: RxState, lim: Limits, evs: seq<RxEvent>): (t: RxState)
    requires st.rxCap > 0 && forall i :: 0 <= i < |evs| ==> Readable(evs[i])
    ensures t.rxCap == st.rxCap
    decreases |evs|
  {
    if evs == [] then st else Run(OnEvent(st, lim, evs[0]), lim, evs[1..])
  }

  /** A whole unit, which fills the queue; the frame after it, which makes the receiver wait; the two
      halves of a type-B unit. */
  predicate Traffic(farm: R.FarmVars, lim: Limits, whole: Frame, next: Frame, first: Frame, last: Frame) {
    && farm.state == R.Open
    && !whole.hdr.typeB && whole.ns == farm.vr && whole.hdr.seg.flag == Unseg && |whole.data| <= lim.maxData
    && !next.hdr.typeB && next.ns == Next(farm.vr)
    && first.hdr.typeB && !first.hdr.command && first.hdr.seg.flag == First && |first.data| <= lim.maxData
    && last.hdr.typeB && !last.hdr.command && last.hdr.seg.flag == Last
    && |first.data| + |last.data| <= lim.maxSdu
  }

  /** Type-B traffic brings a receiver to that state: one half of a type-B unit arrives while it
      waits, its user takes the unit that filled the queue, and the retransmitted type-A frame comes
      before the release. The type-B unit is lost; without that frame it arrives. */
  lemma WaitErrorIsReached(farm: R.FarmVars, lim: Limits, whole: Frame, next: Frame, first: Frame, last: Frame)
    requires Traffic(farm, lim, whole, next, first, last)
    ensures var st := RxState(farm, Closed, [], 1);
            var before := Run(st, lim, [Arrives(whole), Arrives(next), Arrives(first), Taken]);
            && before.farm.state == R.Wait && before.reasm == Gathering(first.data) && before.rx == []
            && Run(before, lim, [Arrives(next), Arrives(last)]).rx == []
            && Run(before, lim, [Arrives(last)]).rx == [first.data + last.data]
  {
    hide R.RegionTaken;
    R.DispatchOnCircle(whole.ns, farm.vr, farm.w);
    R.DispatchOnCircle(next.ns, Next(farm.vr), farm.w);
    var st := RxState(farm, Closed, [], 1);
    var s1 := OnEvent(st, lim, Arrives(whole));
    assert s1 == RxState(farm.(vr := Next(farm.vr), retransmit := false), Closed, [whole.data], 1);
    var s2 := OnEvent(s1, lim, Arrives(next));
    assert s2 == s1.(farm := s1.farm.(retransmit := true, wait := true, state := R.Wait));
    var s3 := OnEvent(s2, lim, Arrives(first));
    assert s3 == s2.(farm := R.CountB(s2.farm), reasm := Gathering(first.data));
    var before := s3.(rx := []);
    assert OnEvent(s3, lim, Taken) == before;
    var dropped := before.(reasm := Closed);
    assert OnEvent(before, lim, Arrives(next)) == dropped;
    assert OnEvent(dropped, lim, Arrives(last)).rx == [];
    assert OnEvent(before, lim, Arrives(last)).rx == [first.data + last.data];
    hide OnEvent, Traffic, R.CommandReadable;
    RunFour(st, lim, Arrives(whole), Arrives(next), Arrives(first), Taken);
    RunTwo(s2, lim, Arrives(first), Taken);
    RunTwo(before, lim, Arrives(next), Arrives(last));
    RunTwo(before, lim, Arrives(last), Taken);
  }

  lemma RunTwo(st: RxState, lim: Limits, a: RxEvent, b: RxEvent)
    requires st.rxCap > 0 && Readable(a) && Readable(b)
    ensures Run(st, lim, [a, b]) == OnEvent(OnEvent(st, lim, a), lim, b)
    ensures Run(st, lim, [a]) == OnEvent(st, lim, a)
  {
    hide OnEvent, Readable;
    var s1 := OnEvent(st, lim, a);
    var s2 := OnEvent(s1, lim, b);
    assert [a, b][1..] == [b] && [a][1..] == [] && [b][1..] == [];
    assert Run(s1, lim, []) == s1 && Run(s2, lim, []) == s2;
    assert Run(s1, lim, [b]) == s2;
  }

  lemma RunFour(st: RxState, lim: Limits, a: RxEvent, b: RxEvent, c: RxEvent, d: RxEvent)
    requires st.rxCap > 0 && Readable(a) && Readable(b) && Readable(c) && Readable(d)
    ensures Run(st, lim, [a, b, c, d]) == Run(OnEvent(OnEvent(st, lim, a), lim, b), lim, [c, d])
  {
    hide OnEvent, Readable;
    assert [a, b, c, d][1..] == [b, c, d] && [b, c, d][1..] == [c, d];
  }

  // ---------------------------------------------------------------------------------------
  // The segments of a unit among other segments, of whichever service
  // ---------------------------------------------------------------------------------------

  /** What the rest of a unit, from offset `off` on, completes when it finds the reassembly `r`. */
  function RestDelivers(r: Reasm, lim: Limits, sdu: seq<byte>, off: nat, max: nat): seq<seq<byte>>
    requires off < |sdu|
  {
    if off == 0 then (if r.Closed? || |sdu| <= max then [sdu] else [])
    else if r.Gathering? && |r.octets| + |sdu| - off <= lim.maxSdu then [r.octets + sdu[off..]]
    else []
  }

  lemma PieceCarriesOn(i: S.Intake, sdu: seq<byte>, off: nat, max: nat, mapId: bv8, lim: Limits)
    requires S.Deliverable(sdu, max, lim) && off < |sdu|
    ensures var next := off + Min(|sdu| - off, max);
            var j := S.TakeIn(i, lim, TX.PieceAt(sdu, off, max, mapId));
            if next < |sdu| then j.delivered == i.delivered
                && RestDelivers(j.reasm, lim, sdu, next, max) == RestDelivers(i.reasm, lim, sdu, off, max)
            else j == S.Intake(Closed, i.delivered + RestDelivers(i.reasm, lim, sdu, off, max))
  {
    var next := off + Min(|sdu| - off, max);
    assert sdu[off..] == sdu[off..next] + sdu[next..];
    if i.reasm.Gathering? {
      assert i.reasm.octets + sdu[off..] == i.reasm.octets + sdu[off..next] + sdu[next..];
    }
    if off == 0 {
      assert sdu[off..] == sdu;
    }
    assert i.delivered + [] == i.delivered;
    if next == |sdu| {
      assert sdu[off..next] == sdu[off..];
    }
  }

  /** Whatever reassembly it finds, the rest of a unit leaves none open and delivers exactly that. */
  lemma {:induction false} RestTakenIn(i: S.Intake, sdu: seq<byte>, off: nat, max: nat, mapId: bv8, lim: Limits)
    requires S.Deliverable(sdu, max, lim) && off < |sdu|
    ensures S.TakeInAll(i, lim, TX.Pieces(sdu, off, max, mapId))
         == S.Intake(Closed, i.delivered + RestDelivers(i.reasm, lim, sdu, off, max))
    decreases |sdu| - off
  {
    hide S.TakeInAll, S.TakeIn, TX.PieceAt, RestDelivers;
    var piece := TX.PieceAt(sdu, off, max, mapId);
    var next := off + Min(|sdu| - off, max);
    assert TX.Pieces(sdu, off, max, mapId) == [piece] + TX.Pieces(sdu, next, max, mapId);
    S.TakeInOne(i, lim, piece, TX.Pieces(sdu, next, max, mapId));
    PieceCarriesOn(i, sdu, off, max, mapId, lim);
    if next < |sdu| {
      RestTakenIn(S.TakeIn(i, lim, piece), sdu, next, max, mapId, lim);
    } else {
      S.TakeInNone(S.TakeIn(i, lim, piece), lim);
    }
  }

  /** The first `k` segments of a unit are the octets up to some offset, from which the others go on. */
  lemma {:induction false} Begun(i: S.Intake, sdu: seq<byte>, off: nat, max: nat, mapId: bv8, lim: Limits, k: nat)
      returns (next: nat)
    requires S.Deliverable(sdu, max, lim) && off < |sdu| && k < |TX.Pieces(sdu, off, max, mapId)|
    requires k > 0 ==> S.HasUpTo(i, sdu, off)
    ensures off <= next < |sdu| && (next == off <==> k == 0)
    ensures TX.Pieces(sdu, off, max, mapId)[k..] == TX.Pieces(sdu, next, max, mapId)
    ensures S.TakeInAll(i, lim, TX.Pieces(sdu, off, max, mapId)[..k])
         == if k == 0 then i else S.Intake(Gathering(sdu[..next]), i.delivered)
    decreases k
  {
    hide S.TakeInAll, S.TakeIn, TX.PieceAt;
    var pieces := TX.Pieces(sdu, off, max, mapId);
    if k == 0 {
      S.TakeInNone(i, lim);
      assert pieces[..0] == [] && pieces[0..] == pieces;
      next := off;
    } else {
      var piece := TX.PieceAt(sdu, off, max, mapId);
      var second := off + Min(|sdu| - off, max);
      var rest := TX.Pieces(sdu, second, max, mapId);
      assert pieces == [piece] + rest && |rest| > 0 && second < |sdu|;
      S.TakesInPiece(i, sdu, off, max, mapId, lim);
      var j := S.TakeIn(i, lim, piece);
      next := Begun(j, sdu, second, max, mapId, lim, k - 1);
      assert pieces[..k] == [piece] + rest[..k - 1] && pieces[k..] == rest[k - 1..];
      S.TakeInOne(i, lim, piece, rest[..k - 1]);
    }
  }

  /** Other segments `xs`, any number of them, come before the unit or anywhere between its segments.
      What they leave of the reassembly decides what the rest of the unit delivers. */
  lemma AmongOthers(i: S.Intake, sdu: seq<byte>, max: nat, mapId: bv8, lim: Limits, k: nat, xs: seq<Segment>)
      returns (off: nat)
    requires S.Deliverable(sdu, max, lim) && k < |TX.Pieces(sdu, 0, max, mapId)| && (k > 0 ==> i.reasm == Closed)
    ensures off < |sdu| && (off == 0 <==> k == 0)
    ensures var pieces := TX.Pieces(sdu, 0, max, mapId);
            var before := if k == 0 then i else S.Intake(Gathering(sdu[..off]), i.delivered);
            var j := S.TakeInAll(before, lim, xs);
            && S.TakeInAll(i, lim, pieces[..k]) == before
            && S.TakeInAll(i, lim, pieces[..k] + xs + pieces[k..])
               == S.Intake(Closed, j.delivered + RestDelivers(j.reasm, lim, sdu, off, max))
  {
    hide S.TakeInAll, S.TakeIn, TX.Pieces, RestDelivers;
    var pieces := TX.Pieces(sdu, 0, max, mapId);
    off := Begun(i, sdu, 0, max, mapId, lim, k);
    var before := if k == 0 then i else S.Intake(Gathering(sdu[..off]), i.delivered);
    S.TakeInAppend(i, lim, pieces[..k] + xs, pieces[k..]);
    S.TakeInAppend(i, lim, pieces[..k], xs);
    RestTakenIn(S.TakeInAll(before, lim, xs), sdu, off, max, mapId, lim);
  }

  /** What one other segment and the rest of the unit deliver together. */
  function Mixed(sdu: seq<byte>, off: nat, max: nat, lim: Limits, x: Segment): seq<seq<byte>>
    requires off <= |sdu|
  {
    if off == 0 then
      match x.seg.flag
      case Unseg => if |x.data| <= lim.maxData then [x.data, sdu] else [sdu]
      case First => if |x.data| <= lim.maxData && max < |sdu| then [] else [sdu]
      case _ => [sdu]
    else
      match x.seg.flag
      case Unseg => if |x.data| <= lim.maxData then [x.data] else [sdu]
      case First => []
      case Last => if off + |x.data| <= lim.maxSdu then [sdu[..off] + x.data] else []
      case Cont => if |sdu| + |x.data| <= lim.maxSdu then [sdu[..off] + x.data + sdu[off..]] else []
  }

  /** One other segment. In front of the unit it costs the unit exactly if it is a first segment that
      fits and the unit is segmented; between its segments it is passed over if it is an oversized
      unsegmented one, and otherwise takes the place of the unit or is mixed into it. */
  lemma AmongOneOther(i: S.Intake, sdu: seq<byte>, max: nat, mapId: bv8, lim: Limits, k: nat, x: Segment)
      returns (off: nat)
    requires S.Deliverable(sdu, max, lim) && k < |TX.Pieces(sdu, 0, max, mapId)| && i.reasm == Closed
    ensures off < |sdu| && (off == 0 <==> k == 0)
    ensures var pieces := TX.Pieces(sdu, 0, max, mapId);
            && (k > 0 ==> S.TakeInAll(i, lim, pieces[..k]) == S.Intake(Gathering(sdu[..off]), i.delivered))
            && S.TakeInAll(i, lim, pieces[..k] + [x] + pieces[k..])
               == S.Intake(Closed, i.delivered + Mixed(sdu, off, max, lim, x))
  {
    hide S.TakeInAll, TX.Pieces;
    off := AmongOthers(i, sdu, max, mapId, lim, k, [x]);
    var before := if k == 0 then i else S.Intake(Gathering(sdu[..off]), i.delivered);
    S.TakeInOne(before, lim, x, []);
    S.TakeInNone(S.TakeIn(before, lim, x), lim);
    assert [x] + [] == [x];
    assert sdu[..off] + sdu[off..] == sdu;
    assert i.delivered + [x.data] + [sdu] == i.delivered + [x.data, sdu] && i.delivered + [] == i.delivered;
    assert forall p: seq<byte> :: i.delivered + [p] + [] == i.delivered + [p];
  }

  // ---------------------------------------------------------------------------------------
  // The same for the frames of both services
  // ---------------------------------------------------------------------------------------

  /** A segment that does not change the reassembly it finds. */
  predicate LeavesAlone(r: Reasm, lim: Limits, s: Segment) {
    match r
    case Closed => !(s.seg.flag == First && |s.data| <= lim.maxData)
    case Gathering(octets) =>
      || (s.seg.flag == Unseg && |s.data| > lim.maxData)
      || (s.seg.flag == Cont && s.data == [] && |octets| <= lim.maxSdu)
  }

  /** Exactly when a frame, of either service, leaves the reassembly as it is. */
  lemma FrameLeavesAloneExactly(st: RxState, lim: Limits, frame: Frame)
    requires st.rxCap > 0 && R.CommandReadable(frame)
    ensures OnFrame(st, true, lim, frame).0.reasm == st.reasm <==>
            if !frame.hdr.typeB then
              frame.ns == st.farm.vr && |st.rx| < st.rxCap ==>
                (match st.farm.state
                 case Open => LeavesAlone(st.reasm, lim, Payload(frame))
                 case Wait => st.reasm.Closed?
                 case Lockout => true)
            else if frame.hdr.command then R.IsUnlock(frame) || R.IsSetVr(frame) || st.reasm.Closed?
            else LeavesAlone(st.reasm, lim, Payload(frame))
  {
    R.DispatchOnCircle(frame.ns, st.farm.vr, st.farm.w);
    hide R.RegionTaken;
  }

  /** Data frames of both services, the type-A frames numbered in sequence from V(R) on. */
  predicate InSequence(vr: Counter, frames: seq<Frame>)
    decreases |frames|
  {
    frames == [] ||
    (if frames[0].hdr.typeB then !frames[0].hdr.command && InSequence(vr, frames[1..])
     else frames[0].ns == vr && InSequence(Next(vr), frames[1..]))
  }

  function Numbered(frames: seq<Frame>): nat {
    if frames == [] then 0 else (if frames[0].hdr.typeB then 0 else 1) + Numbered(frames[1..])
  }

  function Payloads(frames: seq<Frame>): (segs: seq<Segment>)
    ensures |segs| == |frames|
  {
    if frames == [] then [] else [Payload(frames[0])] + Payloads(frames[1..])
  }

  function Arrivals(frames: seq<Frame>): (evs: seq<RxEvent>)
    ensures |evs| == |frames| && forall i :: 0 <= i < |evs| ==> evs[i] == Arrives(frames[i])
  {
    seq(|frames|, i requires 0 <= i < |frames| => Arrives(frames[i]))
  }

  lemma {:induction false} InSequenceIsReadable(vr: Counter, frames: seq<Frame>)
    requires InSequence(vr, frames)
    ensures forall i :: 0 <= i < |frames| ==> R.CommandReadable(frames[i])
    decreases |frames|
  {
    if frames != [] {
      InSequenceIsReadable(if frames[0].hdr.typeB then vr else Next(vr), frames[1..]);
      assert forall i :: 1 <= i < |frames| ==> frames[i] == frames[1..][i - 1];
    }
  }

  lemma FrameTakenIn(st: RxState, lim: Limits, frame: Frame)
    requires st.farm.state == R.Open && |st.rx| < st.rxCap
    requires if frame.hdr.typeB then !frame.hdr.command else frame.ns == st.farm.vr
    ensures R.CommandReadable(frame)
    ensures var t := OnFrame(st, true, lim, frame).0;
            && t.farm.state == R.Open && t.farm.vr == (if frame.hdr.typeB then st.farm.vr else Next(st.farm.vr))
            && t.rxCap == st.rxCap && |t.rx| <= |st.rx| + 1
            && S.Intake(t.reasm, t.rx) == S.TakeIn(S.Intake(st.reasm, st.rx), lim, Payload(frame))
  {
    R.DispatchOnCircle(frame.ns, st.farm.vr, st.farm.w);
    hide R.RegionTaken;
  }

  /** With room for what they may complete all such frames are accepted: V(R) counts those of type A, and
      the reassembly takes in the segments of both services in the order they come. */
  lemma {:induction false} FramesTakenIn(st: RxState, lim: Limits, frames: seq<Frame>)
    requires st.farm.state == R.Open && InSequence(st.farm.vr, frames) && |st.rx| + |frames| <= st.rxCap && st.rxCap > 0
    ensures forall ev :: ev in Arrivals(frames) ==> Readable(ev)
    ensures var t := Run(st, lim, Arrivals(frames));
            && t.farm.state == R.Open && t.farm.vr == (st.farm.vr + Numbered(frames)) % 256
            && S.Intake(t.reasm, t.rx) == S.TakeInAll(S.Intake(st.reasm, st.rx), lim, Payloads(frames))
    decreases |frames|
  {
    hide S.TakeInAll, S.TakeIn, OnFrame, R.CommandReadable;
    InSequenceIsReadable(st.farm.vr, frames);
    var i := S.Intake(st.reasm, st.rx);
    if frames == [] {
      S.TakeInNone(i, lim);
    } else {
      var t := OnFrame(st, true, lim, frames[0]).0;
      FrameTakenIn(st, lim, frames[0]);
      assert Arrivals(frames)[1..] == Arrivals(frames[1..]);
      assert OnEvent(st, lim, Arrivals(frames)[0]) == t;
      FramesTakenIn(t, lim, frames[1..]);
      S.TakeInOne(i, lim, Payload(frames[0]), Payloads(frames[1..]));
    }
  }

  /** A unit of either service, with frames of either service in front of it or anywhere between its
      own. All of them are accepted, and those of type A acknowledged; what reaches the queue is what the
      other frames complete, and then what the rest of the unit does of the reassembly they leave. */
  lemma UnitAmongFrames(st: RxState, lim: Limits, frames: seq<Frame>, sdu: seq<byte>, max: nat, mapId: bv8, k: nat,
                        xs: seq<Segment>)
      returns (off: nat)
    requires st.farm.state == R.Open && InSequence(st.farm.vr, frames) && |st.rx| + |frames| <= st.rxCap && st.rxCap > 0
    requires S.Deliverable(sdu, max, lim) && k < |TX.Pieces(sdu, 0, max, mapId)| && (k > 0 ==> st.reasm == Closed)
    requires var pieces := TX.Pieces(sdu, 0, max, mapId); Payloads(frames) == pieces[..k] + xs + pieces[k..]
    ensures off < |sdu| && (off == 0 <==> k == 0)
    ensures forall ev :: ev in Arrivals(frames) ==> Readable(ev)
    ensures var t := Run(st, lim, Arrivals(frames));
            var j := S.TakeInAll(S.Intake(if k == 0 then st.reasm else Gathering(sdu[..off]), st.rx), lim, xs);
            && t.farm.vr == (st.farm.vr + Numbered(frames)) % 256
            && t.reasm == Closed && t.rx == j.delivered + RestDelivers(j.reasm, lim, sdu, off, max)
  {
    hide S.TakeInAll, TX.Pieces, RestDelivers, Run, Readable, InSequence, Payloads;
    FramesTakenIn(st, lim, frames);
    off := AmongOthers(S.Intake(st.reasm, st.rx), sdu, max, mapId, lim, k, xs);
  }

  /** With one other frame. */
  lemma UnitAndOneFrame(st: RxState, lim: Limits, frames: seq<Frame>, sdu: seq<byte>, max: nat, mapId: bv8, k: nat,
                        x: Segment)
      returns (off: nat)
    requires st.farm.state == R.Open && InSequence(st.farm.vr, frames) && |st.rx| + |frames| <= st.rxCap && st.rxCap > 0
    requires S.Deliverable(sdu, max, lim) && k < |TX.Pieces(sdu, 0, max, mapId)| && st.reasm == Closed
    requires var pieces := TX.Pieces(sdu, 0, max, mapId); Payloads(frames) == pieces[..k] + [x] + pieces[k..]
    ensures off < |sdu| && (off == 0 <==> k == 0)
    ensures forall ev :: ev in Arrivals(frames) ==> Readable(ev)
    ensures var t := Run(st, lim, Arrivals(frames));
            && t.farm.vr == (st.farm.vr + Numbered(frames)) % 256
            && t.reasm == Closed && t.rx == st.rx + Mixed(sdu, off, max, lim, x)
  {
    hide S.TakeInAll, TX.Pieces, Mixed, Run, Readable, InSequence, Payloads;
    FramesTakenIn(st, lim, frames);
    off := AmongOneOther(S.Intake(st.reasm, st.rx), sdu, max, mapId, lim, k, x);
  }
}
