/** COP-1 as a closed system: FOP-1, a lossy first-in-first-out uplink, FARM-1, and a lossy
    first-in-first-out downlink of reports. */
module ClosedLoop {
  import opened Octets
  import opened CopTypes
  import F = FopTable
  import W = FopWindow
  import R = Farm
  import L = FopLimits

  /** `air` holds the frames the lower layer has taken from the sender's transmission queue and not
      yet delivered: a retransmission purges the queue but cannot call these back. `accepted`
      records the type-A frames the receiver hands on, `handed` those handed over to the sender. */
  datatype Link = Link(fop: F.FopVars, air: seq<Frame>, farm: R.FarmVars, down: seq<Clcw>,
                       accepted: seq<Segment>, handed: seq<Segment>)

  datatype Move =
    | AtSender(event: F.FopEvent)
    | Radiated
    | UplinkLoses(i: nat)
    | UplinkDelivers(rxFull: bool)
    | BufferFreed
    | Reported
    | DownlinkLoses(i: nat)
    | DownlinkDelivers

  function Without<T>(s: seq<T>, i: nat): seq<T>
    requires i < |s|
  {
    s[..i] + s[i + 1..]
  }

  /** What may happen next. Nothing is asked of the channels or of the reports; the sender's user
      keeps the rules of a session and no window larger than `kmax`; the receiver's user releases
      no buffer in lockout. (That a delivered frame is readable always holds in a run.) */
  predicate Enabled(s: Link, m: Move, kmax: Counter) {
    match m
    case AtSender(ev) =>
      && !ev.ClcwArrives? && !ev.Drained? && W.Disciplined(s.fop, ev)
      && (ev.Directed? && ev.directive.SetWindow? ==> ev.directive.newWnd <= kmax)
    case Radiated => s.fop.tx != []
    case UplinkLoses(i) => i < |s.air|
    case UplinkDelivers(_) => s.air != [] && R.CommandReadable(s.air[0])
    case BufferFreed => s.farm.state != R.Lockout
    case Reported => true
    case DownlinkLoses(i) => i < |s.down|
    case DownlinkDelivers => s.down != []
  }

  function After(s: Link, m: Move): Link
    requires Enabled(s, m, 255)
  {
    match m
    case AtSender(ev) => s.(fop := F.FopStep(s.fop, ev), handed := s.handed + W.HandedOver(s.fop, ev))
    case Radiated => s.(fop := F.FopStep(s.fop, F.Drained(0)), air := s.air + [s.fop.tx[0]])
    case UplinkLoses(i) => s.(air := Without(s.air, i))
    case UplinkDelivers(rxFull) =>
      var (g, r) := R.Receive(s.farm, s.air[0], rxFull);
      s.(air := s.air[1..], farm := g,
         accepted := if r == R.Enq then s.accepted + [Payload(s.air[0])] else s.accepted)
    case BufferFreed => s.(farm := R.Release(s.farm))
    case Reported => s.(down := s.down + [R.Report(s.farm)])
    case DownlinkLoses(i) => s.(down := Without(s.down, i))
    case DownlinkDelivers => s.(fop := F.FopStep(s.fop, F.ClcwArrives(s.down[0])), down := s.down[1..])
  }

  ghost predicate ValidRun(s: Link, run: seq<Move>, kmax: Counter)
    decreases |run|
  {
    run == [] || (Enabled(s, run[0], kmax) && ValidRun(After(s, run[0]), run[1..], kmax))
  }

  ghost function Final(s: Link, run: seq<Move>, kmax: Counter): Link
    requires ValidRun(s, run, kmax)
    decreases |run|
  {
    if run == [] then s else Final(After(s, run[0]), run[1..], kmax)
  }

  /** A session just opened: V(S) = NN(R) = V(R), nothing outstanding, nothing under way. */
  ghost predicate JustOpened(s: Link, kmax: Counter) {
    && W.Open(s.fop.state) && s.fop.ss == 0
    && s.fop.vs == s.fop.nnr == s.farm.vr
    && s.fop.log == [] && s.fop.sent == [] && s.fop.wait == [] && s.fop.tx == [] && s.air == []
    && (!s.fop.hdr.typeB ==> !s.fop.hdr.command)
    && s.fop.wnd <= kmax && s.fop.wnd <= s.fop.sentCap
    && R.Configured(s.farm) && s.down == [] && s.accepted == [] && s.handed == []
  }

  // ---------------------------------------------------------------------------------------
  // The invariant, in unbounded numbers: `u[i]` is the index of the i-th frame on the uplink,
  // `d[i]` the number of frames the i-th report on the downlink acknowledges
  // ---------------------------------------------------------------------------------------

  /** Everything between sender and receiver, oldest first. */
  function Uplink(s: Link): seq<Frame> {
    s.air + s.fop.tx
  }

  /** Every type-A frame under way is a frame of the session, at most `kmax` behind V(R) and less
      than `kmax` behind any frame sent before it. */
  ghost predicate UplinkOk(up: seq<Frame>, log: seq<Segment>, accepted: nat, base: Counter, kmax: Counter,
                           u: seq<nat>) {
    && |u| == |up|
    && (forall i :: 0 <= i < |up| ==> if up[i].hdr.typeB then !up[i].hdr.command else
          u[i] < |log| && up[i] == W.FrameAt(base, log, u[i]) && accepted <= u[i] + kmax)
    && (forall i, j :: 0 <= i < j < |up| && !up[i].hdr.typeB && !up[j].hdr.typeB ==> u[i] < u[j] + kmax)
  }

  /** The reports under way acknowledge ever more frames, between NN(R) and V(R). */
  ghost predicate DownlinkOk(s: Link, base: Counter, d: seq<nat>) {
    && |d| == |s.down|
    && (forall i :: 0 <= i < |d| ==> W.Acked(s.fop) <= d[i] <= |s.accepted| && s.down[i].nr == W.Number(base, d[i]))
    && (forall i, j :: 0 <= i < j < |d| ==> d[i] <= d[j])
  }

  ghost predicate SessionOk(s: Link, base: Counter, kmax: Counter, d: seq<nat>) {
    && (W.Running(s.fop, base) || W.Paused(s.fop, base))
    && DownlinkOk(s, base, d)
    && W.Acked(s.fop) <= |s.accepted| && |s.fop.log| <= W.Acked(s.fop) + kmax
    && s.fop.wnd <= kmax && W.Submitted(s.fop) == s.handed
  }

  ghost predicate ReceiverOk(s: Link, base: Counter, kmax: Counter) {
    && R.Configured(s.farm) && s.farm.vr == W.Number(base, |s.accepted|)
    && s.accepted <= s.fop.log <= s.handed && |s.fop.log| <= |s.accepted| + kmax
  }

  /** NN(R) <= N(R) under way <= V(R) <= V(S) <= NN(R) + K, and every frame under way lies between
      V(R) - K and V(R) + K - 1; what has been accepted is the beginning of what has been sent, and
      that the beginning of what has been handed over. */
  ghost predicate Invariant(s: Link, base: Counter, kmax: Counter, u: seq<nat>, d: seq<nat>) {
    && ReceiverOk(s, base, kmax)
    && UplinkOk(Uplink(s), s.fop.log, |s.accepted|, base, kmax, u)
    && (SessionOk(s, base, kmax, d) || W.Over(s.fop))
  }

  lemma OpenedInvariant(s: Link, kmax: Counter)
    requires JustOpened(s, kmax)
    ensures Invariant(s, s.farm.vr, kmax, [], [])
  {
  }

  // ---------------------------------------------------------------------------------------
  // The moves
  // ---------------------------------------------------------------------------------------

  lemma UplinkKeeps(up: seq<Frame>, log: seq<Segment>, log': seq<Segment>, accepted: nat, base: Counter, kmax: Counter,
                    u: seq<nat>, n: nat)
    requires UplinkOk(up, log, accepted, base, kmax, u) && n <= |up| && log <= log'
    ensures UplinkOk(up[..n], log', accepted, base, kmax, u[..n])
  {
  }

  lemma UplinkAdds(up: seq<Frame>, log: seq<Segment>, accepted: nat, base: Counter, kmax: Counter, u: seq<nat>,
                   added: seq<Frame>, idx: seq<nat>, a: int)
    requires UplinkOk(up, log, accepted, base, kmax, u) && |added| == |idx|
    requires accepted <= |log| <= a + kmax
    requires forall i :: 0 <= i < |added| ==> if added[i].hdr.typeB then !added[i].hdr.command else
               a <= idx[i] < |log| && added[i] == W.FrameAt(base, log, idx[i])
    ensures UplinkOk(up + added, log, accepted, base, kmax, u + idx)
  {
  }

  /** The uplink stays in order when its tail is purged and outstanding frames are added. */
  lemma UplinkGrows(s: Link, log: seq<Segment>, tx: seq<Frame>, base: Counter, kmax: Counter, u: seq<nat>,
                    kept: seq<Frame>, added: seq<Frame>, idx: seq<nat>, a: int) returns (u': seq<nat>)
    requires UplinkOk(Uplink(s), s.fop.log, |s.accepted|, base, kmax, u) && |s.accepted| <= |s.fop.log|
    requires s.fop.log <= log && |log| <= a + kmax
    requires (kept == s.fop.tx || kept == []) && tx == kept + added && |added| == |idx|
    requires forall i :: 0 <= i < |added| ==> if added[i].hdr.typeB then !added[i].hdr.command else
               a <= idx[i] < |log| && added[i] == W.FrameAt(base, log, idx[i])
    ensures UplinkOk(s.air + tx, log, |s.accepted|, base, kmax, u')
  {
    var up := Uplink(s);
    var n := if kept == s.fop.tx then |up| else |s.air|;
    UplinkKeeps(up, s.fop.log, log, |s.accepted|, base, kmax, u, n);
    UplinkAdds(up[..n], log, |s.accepted|, base, kmax, u[..n], added, idx, a);
    hide UplinkOk;
    assert s.air + tx == up[..n] + added;
    u' := u[..n] + idx;
  }

  /** What an event leaves of the bounds on the sender's counters. */
  lemma SessionBounds(f: F.FopVars, g: F.FopVars, base: Counter, kept: seq<Frame>, added: seq<Frame>, idx: seq<nat>)
    requires W.Outcomes(f, g, base, kept, added, idx)
    ensures f.log <= g.log && g.log <= W.Submitted(g) && (kept == f.tx || kept == []) && g.tx == kept + added
    ensures !W.Over(g) ==> |g.log| <= W.Acked(g) + g.wnd && (W.Running(g, base) || W.Paused(g, base))
    ensures W.Over(g) ==> g.log == f.log
    ensures |added| == |idx|
    ensures forall i :: 0 <= i < |added| ==> if added[i].hdr.typeB then !added[i].hdr.command else
              W.Acked(g) <= idx[i] < |g.log| && added[i] == W.FrameAt(base, g.log, idx[i])
  {
    if W.Over(g) && g.log == f.log && added == [] {
      assert kept + added == kept;
    }
  }

  lemma ReceiverStays(s: Link, base: Counter, kmax: Counter, t: Link)
    requires ReceiverOk(s, base, kmax) && t.farm == s.farm && t.accepted == s.accepted
    requires s.fop.log <= t.fop.log <= t.handed && |t.fop.log| <= |s.accepted| + kmax
    ensures ReceiverOk(t, base, kmax)
  {
  }

  /** What is left on the downlink still lies between NN(R) and V(R) once a report was acted on. */
  lemma DownlinkShrinks(s: Link, base: Counter, d: seq<nat>, t: Link)
    requires DownlinkOk(s, base, d) && s.down != [] && t.down == s.down[1..] && t.accepted == s.accepted
    requires W.Acked(t.fop) == W.Acked(s.fop) || W.Acked(t.fop) == d[0]
    ensures DownlinkOk(t, base, d[1..]) && W.Acked(t.fop) <= |t.accepted|
  {
    assert W.Acked(s.fop) <= d[0] <= |s.accepted|;
  }

  lemma DownlinkStays(s: Link, base: Counter, d: seq<nat>, t: Link)
    requires DownlinkOk(s, base, d) && t.down == s.down && t.accepted == s.accepted && W.Acked(t.fop) == W.Acked(s.fop)
    ensures DownlinkOk(t, base, d)
  {
  }

  /** A report that arrives within a session acknowledges something outstanding. */
  lemma ReportInRange(s: Link, base: Counter, kmax: Counter, d: seq<nat>)
    requires SessionOk(s, base, kmax, d) && s.down != []
    requires |s.accepted| <= |s.fop.log|
    ensures F.InRange(s.down[0].nr, s.fop.vs, s.fop.nnr) && d != []
    ensures Distance(s.down[0].nr, s.fop.nnr) == d[0] - W.Acked(s.fop)
  {
    W.NumbersApart(base, W.Acked(s.fop), d[0]);
    W.NumbersApart(base, W.Acked(s.fop), |s.fop.log|);
  }

  /** What an event at the sender leaves of the invariant; a report comes off the downlink. */
  lemma SenderMoves(s: Link, base: Counter, kmax: Counter, u: seq<nat>, d: seq<nat>, ev: F.FopEvent, t: Link)
      returns (u': seq<nat>, d': seq<nat>)
    requires Invariant(s, base, kmax, u, d) && SessionOk(s, base, kmax, d)
    requires !ev.Drained?
        && (if ev.ClcwArrives? then s.down != [] && ev.clcw == s.down[0] else W.Disciplined(s.fop, ev))
    requires ev.Directed? && ev.directive.SetWindow? ==> ev.directive.newWnd <= kmax
    requires t == s.(fop := F.FopStep(s.fop, ev), handed := s.handed + W.HandedOver(s.fop, ev),
                     down := if ev.ClcwArrives? then s.down[1..] else s.down)
    ensures Invariant(t, base, kmax, u', d')
  {
    hide F.FopStep, F.InRange, W.HandedOver, UplinkOk, DownlinkOk, W.Window, W.Outcomes;
    if ev.ClcwArrives? { ReportInRange(s, base, kmax, d); }
    assert W.Disciplined(s.fop, ev);
    hide W.Disciplined;
    var kept, added, idx := W.EventKeepsSession(s.fop, base, ev);
    SessionBounds(s.fop, t.fop, base, kept, added, idx);
    u', d' := u, if ev.ClcwArrives? then d[1..] else d;
    if W.Over(t.fop) {
      u' := UplinkGrows(s, t.fop.log, t.fop.tx, base, kmax, u, kept, added, idx, |s.fop.log|);
      d' := [];
    } else {
      if ev.ClcwArrives? { DownlinkShrinks(s, base, d, t); } else { DownlinkStays(s, base, d, t); }
      u' := UplinkGrows(s, t.fop.log, t.fop.tx, base, kmax, u, kept, added, idx, W.Acked(t.fop));
    }
    ReceiverStays(s, base, kmax, t);
  }

  lemma SenderMovesAfterSession(s: Link, base: Counter, kmax: Counter, u: seq<nat>, d: seq<nat>, ev: F.FopEvent,
                                t: Link)
      returns (u': seq<nat>)
    requires Invariant(s, base, kmax, u, d) && W.Over(s.fop)
    requires W.Disciplined(s.fop, ev) && !ev.Drained?
    requires t.fop == F.FopStep(s.fop, ev) && t.farm == s.farm && t.accepted == s.accepted && t.air == s.air
    requires t.handed == s.handed + W.HandedOver(s.fop, ev)
    ensures Invariant(t, base, kmax, u', [])
  {
    var added := W.EventAfterSession(s.fop, ev);
    hide F.FopStep, W.Disciplined, UplinkOk, W.HandedOver;
    u' := UplinkGrows(s, t.fop.log, t.fop.tx, base, kmax, u, s.fop.tx, added, seq(|added|, i => 0), |s.fop.log|);
  }

  lemma HeadDrained(f: F.FopVars)
    requires f.tx != []
    ensures F.FopStep(f, F.Drained(0)) == f.(tx := f.tx[1..])
  {
    hide F.OnClcw, F.OnTimer, F.OnRequest, F.OnDirective, F.OnResponse;
  }

  lemma FrameRadiated(s: Link, base: Counter, kmax: Counter, u: seq<nat>, d: seq<nat>, t: Link)
    requires Invariant(s, base, kmax, u, d) && s.fop.tx != []
    requires t == s.(fop := F.FopStep(s.fop, F.Drained(0)), air := s.air + [s.fop.tx[0]])
    ensures Invariant(t, base, kmax, u, d)
  {
    hide F.FopStep, W.Window, UplinkOk;
    HeadDrained(s.fop);
    if W.Window(s.fop, base) {
      W.UplinkInWindow(s.fop, base, s.fop.tx[1..]);
    }
    assert Uplink(t) == Uplink(s);
  }

  lemma UplinkLosesOne(up: seq<Frame>, log: seq<Segment>, accepted: nat, base: Counter, kmax: Counter, u: seq<nat>,
                       i: nat)
    requires UplinkOk(up, log, accepted, base, kmax, u) && i < |up|
    ensures UplinkOk(Without(up, i), log, accepted, base, kmax, Without(u, i))
  {
  }

  lemma FrameLost(s: Link, base: Counter, kmax: Counter, u: seq<nat>, d: seq<nat>, i: nat, t: Link)
    requires Invariant(s, base, kmax, u, d) && i < |s.air| && t == s.(air := Without(s.air, i))
    ensures |u| == |Uplink(s)| && Invariant(t, base, kmax, Without(u, i), d)
  {
    UplinkLosesOne(Uplink(s), s.fop.log, |s.accepted|, base, kmax, u, i);
    assert |u| == |Uplink(s)|;
    hide UplinkOk, W.Window;
    assert Uplink(t) == Without(Uplink(s), i);
  }

  /** A type-A frame under way is the one the receiver expects exactly when the numbers agree. */
  lemma ExpectedByNumber(s: Link, base: Counter, kmax: Counter, u: seq<nat>)
    requires ReceiverOk(s, base, kmax) && UplinkOk(Uplink(s), s.fop.log, |s.accepted|, base, kmax, u)
    requires s.air != [] && !s.air[0].hdr.typeB
    ensures s.air[0] == W.FrameAt(base, s.fop.log, u[0])
    ensures s.air[0].ns == s.farm.vr <==> u[0] == |s.accepted|
    ensures Distance(s.air[0].ns, s.farm.vr) == if u[0] >= |s.accepted| then u[0] - |s.accepted|
        else 256 + u[0] - |s.accepted|
  {
    assert Uplink(s)[0] == s.air[0];
    if u[0] < |s.accepted| {
      W.NumbersApart(base, u[0], |s.accepted|);
    } else {
      W.NumbersApart(base, |s.accepted|, u[0]);
    }
  }

  lemma ReceiveOutcome(s: Link, base: Counter, kmax: Counter, u: seq<nat>, rxFull: bool)
    requires ReceiverOk(s, base, kmax) && UplinkOk(Uplink(s), s.fop.log, |s.accepted|, base, kmax, u) && s.air != []
    ensures var frame := s.air[0];
            && R.CommandReadable(frame)
            && var (g, r) := R.Receive(s.farm, frame, rxFull);
            && R.Configured(g)
            && (r == R.Enq ==> !frame.hdr.typeB && u[0] == |s.accepted| && g.vr == Next(s.farm.vr))
            && (r != R.Enq ==> g.vr == s.farm.vr)
  {
    var frame := s.air[0];
    assert frame == Uplink(s)[0];
    if !frame.hdr.typeB {
      ExpectedByNumber(s, base, kmax, u);
      R.DispatchOnCircle(frame.ns, s.farm.vr, s.farm.w);
      hide R.RegionTaken, R.ConditionE3, R.ConditionE4;
    }
  }

  lemma UplinkShrinks(up: seq<Frame>, log: seq<Segment>, before: nat, after: nat, base: Counter, kmax: Counter,
                      u: seq<nat>)
    requires UplinkOk(up, log, before, base, kmax, u) && up != []
    requires after == before || (after == before + 1 && !up[0].hdr.typeB && u[0] == before)
    ensures UplinkOk(up[1..], log, after, base, kmax, u[1..])
  {
  }

  lemma FrameArrives(s: Link, base: Counter, kmax: Counter, u: seq<nat>, d: seq<nat>, rxFull: bool, t: Link)
    requires Invariant(s, base, kmax, u, d) && Enabled(s, UplinkDelivers(rxFull), 255)
    requires t == After(s, UplinkDelivers(rxFull))
    ensures Invariant(t, base, kmax, u[1..], d)
  {
    ReceiveOutcome(s, base, kmax, u, rxFull);
    if t.accepted != s.accepted {
      ExpectedByNumber(s, base, kmax, u);
      assert Payload(s.air[0]) == s.fop.log[|s.accepted|];
    }
    hide R.Receive, R.CommandReadable, W.Window, W.Over, UplinkOk;
    assert Uplink(t) == Uplink(s)[1..] && Uplink(s)[0] == s.air[0];
    UplinkShrinks(Uplink(s), s.fop.log, |s.accepted|, |t.accepted|, base, kmax, u);
    W.NextNumber(base, |s.accepted|);
  }

  lemma ReportLeaves(s: Link, base: Counter, kmax: Counter, u: seq<nat>, d: seq<nat>)
    requires Invariant(s, base, kmax, u, d)
    ensures Invariant(After(s, Reported), base, kmax, u, d + [|s.accepted|])
  {
    hide UplinkOk, W.Window;
  }

  lemma ReportLost(s: Link, base: Counter, kmax: Counter, u: seq<nat>, d: seq<nat>, i: nat)
    requires Invariant(s, base, kmax, u, d) && i < |s.down|
    ensures Invariant(After(s, DownlinkLoses(i)), base, kmax, u, if i < |d| then Without(d, i) else d)
  {
    hide UplinkOk, W.Window;
  }

  /** Every move keeps the invariant. */
  lemma MoveKeepsInvariant(s: Link, base: Counter, kmax: Counter, u: seq<nat>, d: seq<nat>, m: Move)
      returns (u': seq<nat>, d': seq<nat>)
    requires Invariant(s, base, kmax, u, d) && Enabled(s, m, kmax)
    ensures Invariant(After(s, m), base, kmax, u', d')
  {
    var t := After(s, m);
    u', d' := u, d;
    match m {
      case AtSender(ev) =>
        if W.Over(s.fop) {
          u' := SenderMovesAfterSession(s, base, kmax, u, d, ev, t);
          d' := [];
        } else {
          u', d' := SenderMoves(s, base, kmax, u, d, ev, t);
        }
      case DownlinkDelivers =>
        if W.Over(s.fop) {
          u' := SenderMovesAfterSession(s, base, kmax, u, d, F.ClcwArrives(s.down[0]), t);
          d' := [];
        } else {
          u', d' := SenderMoves(s, base, kmax, u, d, F.ClcwArrives(s.down[0]), t);
        }
      case Radiated => FrameRadiated(s, base, kmax, u, d, t);
      case UplinkLoses(i) =>
        FrameLost(s, base, kmax, u, d, i, t);
        u' := Without(u, i);
      case UplinkDelivers(rxFull) =>
        FrameArrives(s, base, kmax, u, d, rxFull, t);
        u' := u[1..];
      case BufferFreed =>
      case Reported =>
        ReportLeaves(s, base, kmax, u, d);
        d' := d + [|s.accepted|];
      case DownlinkLoses(i) =>
        ReportLost(s, base, kmax, u, d, i);
        d' := if i < |d| then Without(d, i) else d;
    }
  }

  // ---------------------------------------------------------------------------------------
  // Runs
  // ---------------------------------------------------------------------------------------

  lemma {:induction false} RunKeepsInvariant(s: Link, base: Counter, kmax: Counter, u: seq<nat>, d: seq<nat>,
                                             run: seq<Move>)
      returns (u': seq<nat>, d': seq<nat>)
    requires Invariant(s, base, kmax, u, d) && ValidRun(s, run, kmax)
    ensures Invariant(Final(s, run, kmax), base, kmax, u', d')
    ensures Final(s, run, kmax).farm.w == s.farm.w
    decreases |run|
  {
    hide After, Invariant;
    u', d' := u, d;
    if run != [] {
      u', d' := MoveKeepsInvariant(s, base, kmax, u, d, run[0]);
      MoveKeepsWidth(s, run[0]);
      u', d' := RunKeepsInvariant(After(s, run[0]), base, kmax, u', d', run[1..]);
    }
  }

  lemma MoveKeepsWidth(s: Link, m: Move)
    requires Enabled(s, m, 255)
    ensures After(s, m).farm.w == s.farm.w
  {
    hide F.FopStep, W.Disciplined, W.HandedOver, R.RegionTaken;
  }

  /** Whatever the channels lose, whatever is retransmitted, and whatever the window up to 255: what
      the receiver has accepted is at every moment a prefix of what the sender transmitted for the
      first time, which is a prefix of what was handed over to it. In particular nothing is accepted
      twice, out of order or with a gap before it. What the sender has crossed off as acknowledged,
      the receiver has accepted. */
  lemma InOrderNoLossNoDuplicate(s: Link, run: seq<Move>, kmax: Counter)
    requires JustOpened(s, kmax) && ValidRun(s, run, kmax)
    ensures var t := Final(s, run, kmax);
            && t.accepted <= t.fop.log <= t.handed
            && (!W.Over(t.fop) ==> 0 <= W.Acked(t.fop) <= |t.accepted| && t.fop.log[..W.Acked(t.fop)] <= t.accepted)
  {
    OpenedInvariant(s, kmax);
    hide JustOpened;
    var u, d := RunKeepsInvariant(s, s.farm.vr, kmax, [], [], run);
    hide UplinkOk, DownlinkOk;
  }

  /** The counters of a session, on the circle: NN(R), every N(R) on its way, V(R) and V(S) follow
      one another in this order, and span at most K. */
  lemma CountersFollow(s: Link, run: seq<Move>, kmax: Counter)
    requires JustOpened(s, kmax) && ValidRun(s, run, kmax)
    ensures var t := Final(s, run, kmax);
            W.Over(t.fop) ||
            (&& Distance(t.farm.vr, t.fop.nnr) + Distance(t.fop.vs, t.farm.vr) == Distance(t.fop.vs, t.fop.nnr)
                == |t.fop.sent|
             && |t.fop.sent| <= t.fop.wnd <= kmax
             && forall i :: 0 <= i < |t.down| ==> Distance(t.down[i].nr, t.fop.nnr) <= Distance(t.farm.vr, t.fop.nnr))
  {
    var base := s.farm.vr;
    OpenedInvariant(s, kmax);
    hide JustOpened;
    var u, d := RunKeepsInvariant(s, base, kmax, [], [], run);
    hide UplinkOk;
    var t := Final(s, run, kmax);
    if !W.Over(t.fop) {
      var a := W.Acked(t.fop);
      W.NumbersApart(base, a, |t.accepted|);
      W.NumbersApart(base, |t.accepted|, |t.fop.log|);
      W.NumbersApart(base, a, |t.fop.log|);
      forall i | 0 <= i < |t.down| ensures Distance(t.down[i].nr, t.fop.nnr) <= Distance(t.farm.vr, t.fop.nnr) {
        W.NumbersApart(base, a, d[i]);
      }
    }
  }

  // ---------------------------------------------------------------------------------------
  // Lockout
  // ---------------------------------------------------------------------------------------

  /** The frame about to be delivered is the one the receiver's window tests get wrong. */
  predicate StaleAtWrap(s: Link, m: Move) {
    m.UplinkDelivers? && s.air != [] && !s.air[0].hdr.typeB && s.air[0].ns == 255 && s.farm.vr == 0
  }

  lemma ArrivalLocksOut(s: Link, base: Counter, kmax: Counter, u: seq<nat>, rxFull: bool)
    requires ReceiverOk(s, base, kmax) && UplinkOk(Uplink(s), s.fop.log, |s.accepted|, base, kmax, u)
    requires kmax < s.farm.pw && s.farm.state != R.Lockout && s.air != [] && R.CommandReadable(s.air[0])
    ensures R.Receive(s.farm, s.air[0], rxFull).0.state == R.Lockout
            <==> !s.air[0].hdr.typeB && s.air[0].ns == 255 && s.farm.vr == 0
  {
    hide W.FrameAt, W.Number;
    var frame := s.air[0];
    if !frame.hdr.typeB {
      ExpectedByNumber(s, base, kmax, u);
      assert Uplink(s)[0] == frame;
      var b, a := Distance(frame.ns, s.farm.vr), |s.accepted|;
      assert a <= u[0] + kmax && u[0] < a + kmax;
    }
  }

  /** In a session whose window is smaller than the receiver's positive window no frame ever locks
      the receiver out, except the one frame numbered 255 that arrives late at V(R) = 0; that one
      always does. */
  lemma LockoutExactlyAtWrap(s: Link, run: seq<Move>, kmax: Counter, m: Move)
    requires JustOpened(s, kmax) && ValidRun(s, run, kmax) && kmax < s.farm.w / 2
    requires Enabled(Final(s, run, kmax), m, kmax) && Final(s, run, kmax).farm.state != R.Lockout
    ensures After(Final(s, run, kmax), m).farm.state == R.Lockout <==> StaleAtWrap(Final(s, run, kmax), m)
  {
    OpenedInvariant(s, kmax);
    hide JustOpened;
    var u, d := RunKeepsInvariant(s, s.farm.vr, kmax, [], [], run);
    var t := Final(s, run, kmax);
    if m.UplinkDelivers? {
      ArrivalLocksOut(t, s.farm.vr, kmax, u, m.rxFull);
    }
    hide F.FopStep, W.HandedOver, R.Receive, W.Disciplined, UplinkOk;
  }

  /** A link whose first frame will be numbered 255: as opened, with the frame on the sender's
      transmission queue, and with `copies` of the frame on the uplink. */
  function WrappingFop(sent: bool, txCnt: Counter, queued: bool): F.FopVars {
    var frame := WrappingFrame();
    F.FopVars(F.Active, if sent then 0 else 255, 255, txCnt, 3, 1, 0, 0, frame.hdr, [],
              if sent then [F.Item(frame, false, 255, false)] else [], 1, [], if queued then [frame] else [], 1,
              if sent then [Payload(frame)] else [])
  }

  function WrappingFrame(): Frame {
    Frame(Header(false, false, SegHeader(Unseg, 0)), 255, [])
  }

  function WrappingLink(): Link {
    Link(WrappingFop(false, 1, false), [], R.FarmVars(R.Open, false, false, false, 255, 0, 4, 2, 2), [], [], [])
  }

  lemma WrappingTransmission()
    ensures F.OnRequest(WrappingFop(false, 1, false)) == (WrappingFop(true, 1, true), F.Accepted)
  {
    var f := WrappingFop(false, 1, false);
    var g := f.(wait := [F.Request(f.hdr, f.data)]);
    assert F.Resend(g) == (g, true);
    assert F.Pack(g, g.wait[0].data) == WrappingFrame() && g.wait[1..] == [];
    assert g.tx + [WrappingFrame()] == [WrappingFrame()]
        && g.log + [Payload(WrappingFrame())] == [Payload(WrappingFrame())];
    assert g.sent + [F.Item(WrappingFrame(), false, 255, false)] == [F.Item(WrappingFrame(), false, 255, false)];
    assert F.TransmitAd(g) == (WrappingFop(true, 1, true), true);
  }

  lemma WrappingRetransmission()
    ensures F.OnTimer(WrappingFop(true, 1, false)) == WrappingFop(true, 2, true)
  {
    var f := WrappingFop(true, 1, false);
    var marked := [F.Item(WrappingFrame(), true, 255, false)];
    var g := f.(txCnt := 2, sent := marked);
    assert F.MarkAll(f.sent) == marked;
    assert F.RetryAd(f) == g;
    assert F.FirstMarked(marked) == 0;
    assert F.Leading(marked, 255) == 0;
    assert F.ResetRt(marked, 255) == f.sent;
    assert g.tx + [WrappingFrame()] == [WrappingFrame()];
    hide F.FirstMarked, F.Leading, F.ResetRt, F.MarkAll, F.RetryAd;
    assert F.Resend(g) == (WrappingFop(true, 2, true), true);
  }

  lemma OneMove(s: Link, m: Move, t: Link, rest: seq<Move>, kmax: Counter)
    requires Enabled(s, m, kmax) && After(s, m) == t && ValidRun(t, rest, kmax)
    ensures ValidRun(s, [m] + rest, kmax) && Final(s, [m] + rest, kmax) == Final(t, rest, kmax)
  {
    var run := [m] + rest;
    assert run[0] == m && run[1..] == rest;
    hide After, Enabled;
    assert Final(s, run, kmax) == Final(After(s, run[0]), run[1..], kmax);
  }

  /** That exception is real: one retransmission that crosses its original is enough. */
  lemma LockoutIsReachable()
    ensures var run := [AtSender(F.Requested), Radiated, AtSender(F.TimerExpires), Radiated,
                        UplinkDelivers(false), UplinkDelivers(false)];
            && JustOpened(WrappingLink(), 1) && ValidRun(WrappingLink(), run, 1)
            && Final(WrappingLink(), run, 1).farm.state == R.Lockout
            && Final(WrappingLink(), run, 1).accepted == Final(WrappingLink(), run, 1).handed
  {
    hide F.OnRequest, F.OnTimer, F.OnClcw, F.OnDirective, F.OnResponse;
    WrappingTransmission();
    WrappingRetransmission();
    var s0 := WrappingLink();
    var frame := WrappingFrame();
    var s1 := s0.(fop := WrappingFop(true, 1, true), handed := [Payload(frame)]);
    var s2 := s1.(fop := WrappingFop(true, 1, false), air := [frame]);
    var s3 := s2.(fop := WrappingFop(true, 2, true));
    var s4 := s3.(fop := WrappingFop(true, 2, false), air := [frame, frame]);
    var s5 := s4.(air := [frame], farm := s4.farm.(vr := 0), accepted := [Payload(frame)]);
    var s6 := s5.(air := [], farm := s5.farm.(state := R.Lockout, lockout := true));
    var run := [AtSender(F.Requested), Radiated, AtSender(F.TimerExpires), Radiated,
                UplinkDelivers(false), UplinkDelivers(false)];
    assert After(s0, run[0]) == s1;
    HeadDrained(s1.fop);
    assert After(s1, run[1]) == s2;
    assert After(s2, run[2]) == s3;
    HeadDrained(s3.fop);
    assert After(s3, run[3]) == s4;
    assert After(s4, run[4]) == s5;
    assert After(s5, run[5]) == s6;
    assert JustOpened(s0, 1);
    assert Final(s6, [], 1) == s6;
    hide After, JustOpened, WrappingFop, WrappingFrame, WrappingLink;
    OneMove(s5, run[5], s6, [], 1);
    OneMove(s4, run[4], s5, [run[5]], 1);
    OneMove(s3, run[3], s4, run[4..], 1);
    OneMove(s2, run[2], s3, run[3..], 1);
    OneMove(s1, run[1], s2, run[2..], 1);
    OneMove(s0, run[0], s1, run[1..], 1);
  }

  // ---------------------------------------------------------------------------------------
  // Repeated reports
  // ---------------------------------------------------------------------------------------

  /** Every report that arrives within a session is in range. An open session is ended by a false alarm
      all the same, exactly by a report that acknowledges nothing new while the numbers of the window
      wrap; a suspended one ignores all reports. */
  lemma FalseAlarmExactlyWhenWrapped(s: Link, run: seq<Move>, kmax: Counter)
    requires JustOpened(s, kmax) && ValidRun(s, run, kmax)
    requires Final(s, run, kmax).down != [] && !W.Over(Final(s, run, kmax).fop)
    ensures var f, c := Final(s, run, kmax).fop, Final(s, run, kmax).down[0];
            && F.InRange(c.nr, f.vs, f.nnr)
            && (if W.Open(f.state)
                then (F.ClcwEvent(f, c) == F.E13 <==> !c.lockout && c.nr == f.nnr && f.vs < f.nnr)
                     && (F.ClcwEvent(f, c) == F.E13 ==> W.GivenUp(f, F.OnClcw(f, c)))
                else F.OnClcw(f, c) == f)
  {
    OpenedInvariant(s, kmax);
    hide JustOpened;
    var u, d := RunKeepsInvariant(s, s.farm.vr, kmax, [], [], run);
    var t := Final(s, run, kmax);
    ReportInRange(t, s.farm.vr, kmax, d);
    hide Invariant, DownlinkOk, SessionOk;
    if W.Open(t.fop.state) {
      AlarmGivesUp(t.fop, t.down[0]);
      AlarmWhenWrapped(t.fop, t.down[0]);
    } else {
      W.InitIgnores(t.fop, t.down[0]);
    }
    hide F.OnClcw, F.ClcwEvent;
  }

  lemma AlarmWhenWrapped(f: F.FopVars, c: Clcw)
    requires F.InRange(c.nr, f.vs, f.nnr)
    ensures F.ClcwEvent(f, c) == F.E13 <==> !c.lockout && c.nr == f.nnr && f.vs < f.nnr
  {
  }

  lemma AlarmGivesUp(f: F.FopVars, c: Clcw)
    requires W.Open(f.state)
    ensures F.ClcwEvent(f, c) == F.E13 ==> W.GivenUp(f, F.OnClcw(f, c))
  {
    hide F.ClcwEvent, F.RemoveAcked, F.LookForFdu, F.RetryAd, F.RetryBc, F.LookForDirective;
  }

  /** One report is enough: sent before the frame numbered 255 arrives, it repeats NN(R) while V(S) has
      wrapped. The session ends although nothing was lost, and the counters no longer agree. */
  lemma FalseAlarmIsReachable()
    ensures var run := [AtSender(F.Requested), Reported, DownlinkDelivers];
            && JustOpened(WrappingLink(), 1) && ValidRun(WrappingLink(), run, 1)
            && var t := Final(WrappingLink(), run, 1);
            && W.Over(t.fop) && t.handed != [] && t.accepted == []
            && t.fop.vs == 0 && t.fop.nnr == 255 && !t.fop.hdr.typeB && !t.fop.hdr.command
  {
    WrappingTransmission();
    var frame := WrappingFrame();
    var c := Clcw(false, false, false, 255);
    var f1 := WrappingFop(true, 1, true);
    var s0 := WrappingLink();
    var s1 := s0.(fop := f1, handed := [Payload(frame)]);
    var s2 := s1.(down := [c]);
    var s3 := s2.(fop := f1.(state := F.Init, sent := [], wait := []), down := []);
    assert JustOpened(s0, 1);
    AlarmWhenWrapped(f1, c);
    hide F.ClcwEvent, F.RemoveAcked, F.LookForFdu, F.RetryAd, F.RetryBc, F.LookForDirective;
    assert F.OnClcw(f1, c) == s3.fop;
    hide F.OnRequest, F.OnTimer, F.OnClcw, F.OnDirective, F.OnResponse;
    var run := [AtSender(F.Requested), Reported, DownlinkDelivers];
    assert After(s0, run[0]) == s1 && After(s1, run[1]) == s2 && After(s2, run[2]) == s3;
    assert Final(s3, [], 1) == s3;
    assert WrappingFrame().hdr == s3.fop.hdr;
    hide After, JustOpened, WrappingFop, WrappingLink;
    OneMove(s2, run[2], s3, [], 1);
    OneMove(s1, run[1], s2, [run[2]], 1);
    OneMove(s0, run[0], s1, run[1..], 1);
  }

  // ---------------------------------------------------------------------------------------
  // The transmission count
  // ---------------------------------------------------------------------------------------

  lemma MoveKeepsCount(s: Link, base: Counter, kmax: Counter, u: seq<nat>, d: seq<nat>, m: Move)
    requires Invariant(s, base, kmax, u, d) && Enabled(s, m, kmax) && L.Counted(s.fop)
    requires m.AtSender? && m.event.Directed? ==> !m.event.directive.SetTxLimit?
    ensures L.Counted(After(s, m).fop)
  {
    hide F.FopStep, W.HandedOver, R.Receive, UplinkOk;
    if m.AtSender? || m.DownlinkDelivers? {
      var ev := if m.AtSender? then m.event else F.ClcwArrives(s.down[0]);
      L.EventKeepsCount(s.fop, ev);
      if ev.ClcwArrives? && W.Open(s.fop.state) {
        ReportInRange(s, base, kmax, d);
        L.SessionNeverOvercounts(s.fop, base, ev);
      }
    } else if m.Radiated? {
      HeadDrained(s.fop);
    }
  }

  /** In a run that leaves the limit alone no frame is transmitted more often than it allows. */
  lemma {:induction false} CountWithinLimit(s: Link, base: Counter, kmax: Counter, u: seq<nat>, d: seq<nat>,
                                            run: seq<Move>)
    requires Invariant(s, base, kmax, u, d) && ValidRun(s, run, kmax) && L.Counted(s.fop)
    requires forall i :: 0 <= i < |run| && run[i].AtSender? && run[i].event.Directed? ==>
               !run[i].event.directive.SetTxLimit?
    ensures L.Counted(Final(s, run, kmax).fop)
    decreases |run|
  {
    hide After, Invariant;
    if run != [] {
      MoveKeepsCount(s, base, kmax, u, d, run[0]);
      var u', d' := MoveKeepsInvariant(s, base, kmax, u, d, run[0]);
      CountWithinLimit(After(s, run[0]), base, kmax, u', d', run[1..]);
    }
  }
}
