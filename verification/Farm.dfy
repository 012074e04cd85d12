/** FARM-1, the receiving end of COP-1 (src/osdlp_cop.c:37-336). */
module Farm {
  import opened Octets
  import opened CopTypes

  datatype FarmState = Open | Wait | Lockout

  datatype FarmResult = Ok | Enq | PriorityEnq | Discard | Error

  /** The FARM variables; `w` is the window width, `pw` and `nw` its two halves. */
  datatype FarmVars = FarmVars(state: FarmState, lockout: bool, wait: bool, retransmit: bool,
                               vr: Counter, farmBCnt: nat, w: Counter, pw: nat, nw: nat)

  ghost predicate Configured(f: FarmVars) {
    f.pw == f.nw == f.w / 2 && f.farmBCnt < 4
  }

  /** The state variable and the three CLCW flags tell the same story. */
  ghost predicate Consistent(f: FarmVars) {
    match f.state
    case Open => !f.lockout && !f.wait
    case Wait => !f.lockout && f.wait && f.retransmit
    case Lockout => f.lockout
  }

  // ---------------------------------------------------------------------------------------
  // Where a sequence number falls: the window tests of the code, and the circle they stand for
  // ---------------------------------------------------------------------------------------

  datatype Region = Expected | Positive | Negative | Outside

  /** Remainder as the source language takes it: with the sign of the dividend. */
  function Rem256(x: int): int {
    if x >= 0 then x % 256 else -((-x) % 256)
  }

  predicate ConditionE3(ns: Counter, vr: Counter, pw: nat) {
    (ns > vr && ns <= vr + pw - 1)
    || (vr > Rem256(vr + pw - 1) && ns < vr && ns < Rem256(vr + pw - 1))
  }

  predicate ConditionE4(ns: Counter, vr: Counter, pw: nat, nw: nat) {
    (ns < vr && ns >= vr - nw)
    || ((ns + pw) % 256 >= vr && (ns + pw) % 256 < vr + pw - 1)
  }

  /** The region by circular distance alone: ahead by less than PW, behind by at most NW. */
  function RegionOnCircle(ns: Counter, vr: Counter, w: Counter): Region {
    var d := Distance(ns, vr);
    if d == 0 then Expected
    else if d < w / 2 then Positive
    else if d >= 256 - w / 2 then Negative
    else Outside
  }

  /** The two places where the code's tests miss a sequence number that is inside the window:
      the far edge of a positive window that wraps, and N(S) = 255 just behind V(R) = 0. */
  predicate MissedByTests(ns: Counter, vr: Counter, w: Counter) {
    || (Distance(ns, vr) == w / 2 - 1 && w / 2 - 1 > 0 && vr + w / 2 - 1 >= 256)
    || (vr == 0 && ns == 255)
  }

  /** A width below two leaves no window at all; the code then takes what lies at least two below
      V(R), without wrapping, for the positive window. */
  predicate TakenWithoutWindow(ns: Counter, vr: Counter, w: Counter) {
    w < 2 && ns + 1 < vr
  }

  function RegionTaken(ns: Counter, vr: Counter, w: Counter): Region {
    if TakenWithoutWindow(ns, vr, w) then Positive
    else if MissedByTests(ns, vr, w) then Outside
    else RegionOnCircle(ns, vr, w)
  }

  /** The quantities of the window tests without remainders. */
  lemma Unwrapped(ns: Counter, vr: Counter, pw: nat)
    requires pw < 128
    ensures Distance(ns, vr) == if ns >= vr then ns - vr else ns - vr + 256
    ensures Rem256(vr + pw - 1) == if vr + pw - 1 < 256 then vr + pw - 1 else vr + pw - 257
    ensures (ns + pw) % 256 == if ns + pw < 256 then ns + pw else ns + pw - 256
  {
  }

  /** For every V(R), N(S) and width the tests of the code select the region the circle gives,
      except at exactly the places above. */
  lemma DispatchOnCircle(ns: Counter, vr: Counter, w: Counter)
    ensures (ns == vr) == (RegionTaken(ns, vr, w) == Expected)
    ensures (ns != vr && ConditionE3(ns, vr, w / 2)) == (RegionTaken(ns, vr, w) == Positive)
    ensures (ns != vr && !ConditionE3(ns, vr, w / 2) && ConditionE4(ns, vr, w / 2, w / 2))
            == (RegionTaken(ns, vr, w) == Negative)
    ensures w >= 2 ==> (RegionTaken(ns, vr, w) != RegionOnCircle(ns, vr, w) <==> MissedByTests(ns, vr, w))
    ensures w < 2 ==> (RegionTaken(ns, vr, w) != RegionOnCircle(ns, vr, w) <==> TakenWithoutWindow(ns, vr, w))
  {
    Unwrapped(ns, vr, w / 2);
    hide Distance, Rem256;
  }

  // ---------------------------------------------------------------------------------------
  // One frame
  // ---------------------------------------------------------------------------------------

  /** The octets a control command is recognised by must be there to be read. */
  predicate CommandReadable(frame: Frame) {
    frame.hdr.typeB && frame.hdr.command ==>
      && |frame.data| >= 1
      && (frame.data[0] == SETVR_BYTE1 ==> |frame.data| >= 2)
      && (frame.data[0] == SETVR_BYTE1 && frame.data[1] == SETVR_BYTE2 ==> |frame.data| >= 3)
  }

  predicate IsUnlock(frame: Frame)
    requires CommandReadable(frame)
  {
    frame.hdr.typeB && frame.hdr.command && frame.data[0] == UNLOCK_CMD
  }

  predicate IsSetVr(frame: Frame)
    requires CommandReadable(frame)
  {
    frame.hdr.typeB && frame.hdr.command && frame.data[0] == SETVR_BYTE1 && frame.data[1] == SETVR_BYTE2
  }

  /** The value a Set V(R) command carries. */
  function NewVr(frame: Frame): Counter
    requires CommandReadable(frame) && IsSetVr(frame)
  {
    frame.data[2] as int
  }

  function CountB(f: FarmVars): FarmVars {
    f.(farmBCnt := (f.farmBCnt + 1) % 4)
  }

  function TypeA(f: FarmVars, region: Region, rxFull: bool): (FarmVars, FarmResult) {
    match (region, f.state)
    case (Expected, Open) =>
      if rxFull then (f.(retransmit := true, wait := true, state := Wait), Discard)
      else (f.(vr := Next(f.vr), retransmit := false), Enq)
    case (Expected, Wait) => (f, if rxFull then Discard else Error)
    case (Positive, Open) => (f.(retransmit := true), Discard)
    case (Outside, _) => (f.(state := Lockout, lockout := f.lockout || !f.state.Lockout?), Discard)
    case _ => (f, Discard)
  }

  function Unlock(f: FarmVars): FarmVars {
    var g := CountB(f).(retransmit := false, state := Open);
    match f.state
    case Open => g
    case Wait => g.(wait := false)
    case Lockout => g.(wait := false, lockout := false)
  }

  function SetVr(f: FarmVars, v: Counter): FarmVars {
    var g := CountB(f);
    match f.state
    case Open => g.(vr := v, retransmit := false)
    case Wait => g.(vr := v, retransmit := false, wait := false, state := Open)
    case Lockout => g
  }

  /** What one received frame does; `rxFull` says whether the receive queue has no room. */
  function Receive(f: FarmVars, frame: Frame, rxFull: bool): (FarmVars, FarmResult)
    requires CommandReadable(frame)
  {
    if !frame.hdr.typeB then TypeA(f, RegionTaken(frame.ns, f.vr, f.w), rxFull)
    else if !frame.hdr.command then (CountB(f), PriorityEnq)
    else if IsUnlock(frame) then (Unlock(f), Ok)
    else if IsSetVr(frame) then (SetVr(f, NewVr(frame)), Ok)
    else (f, Error)
  }

  function Release(f: FarmVars): FarmVars {
    f.(wait := false, state := Open)
  }

  /** The report the receiver sends back. */
  function Report(f: FarmVars): Clcw {
    Clcw(f.lockout, f.wait, f.retransmit, f.vr)
  }

  // ---------------------------------------------------------------------------------------
  // The receiver as it is programmed: one record updated in place
  // ---------------------------------------------------------------------------------------

  class FarmUnit {
    var state: FarmState
    var lockout: bool
    var wait: bool
    var retransmit: bool
    var vr: Counter
    var farmBCnt: nat
    var w: Counter
    var pw: nat
    var nw: nat

    ghost function Vars(): FarmVars
      reads this
    {
      FarmVars(state, lockout, wait, retransmit, vr, farmBCnt, w, pw, nw)
    }

    /** `osdlp_prepare_farm` sets the state and the window only; the other fields are the caller's. */
    constructor (initial: FarmState, windowWidth: Counter, flags: Clcw, bCnt: nat)
      requires bCnt < 4
      ensures Configured(Vars())
      ensures Vars() == FarmVars(initial, flags.lockout, flags.wait, flags.retransmit, flags.nr, bCnt,
                                 windowWidth, windowWidth / 2, windowWidth / 2)
    {
      state := initial;
      w := windowWidth;
      pw := windowWidth / 2;
      nw := windowWidth / 2;
      lockout, wait, retransmit, vr := flags.lockout, flags.wait, flags.retransmit, flags.nr;
      farmBCnt := bCnt;
    }

    method BufferRelease()
      modifies this
      ensures Vars() == Release(old(Vars()))
    {
      wait := false;
      state := Open;
    }

    method E1() returns (r: FarmResult)
      modifies this
      ensures (Vars(), r) == TypeA(old(Vars()), Expected, false)
    {
      match state {
        case Open =>
          vr := (vr + 1) % 256;
          if retransmit { retransmit := false; }
          r := Enq;
        case Wait => r := Error;
        case Lockout => r := Discard;
      }
    }

    method E2() returns (r: FarmResult)
      modifies this
      ensures (Vars(), r) == TypeA(old(Vars()), Expected, true)
    {
      if state == Open {
        retransmit := true;
        wait := true;
        state := Wait;
      }
      r := Discard;
    }

    method E3() returns (r: FarmResult)
      modifies this
      ensures (Vars(), r) == TypeA(old(Vars()), Positive, false)
    {
      if state == Open { retransmit := true; }
      r := Discard;
    }

    method E5() returns (r: FarmResult)
      modifies this
      ensures (Vars(), r) == TypeA(old(Vars()), Outside, false)
    {
      if state != Lockout {
        state := Lockout;
        lockout := true;
      }
      r := Discard;
    }

    method E7()
      modifies this
      ensures Vars() == Unlock(old(Vars()))
    {
      farmBCnt := (farmBCnt + 1) % 4;
      retransmit := false;
      match state {
        case Open =>
        case Wait =>
          wait := false;
          state := Open;
        case Lockout =>
          wait := false;
          lockout := false;
          state := Open;
      }
    }

    method E8(v: Counter)
      modifies this
      ensures Vars() == SetVr(old(Vars()), v)
    {
      farmBCnt := (farmBCnt + 1) % 4;
      if state != Lockout {
        vr := v;
        retransmit := false;
        if state == Wait {
          wait := false;
          state := Open;
        }
      }
    }

    method Farm1(frame: Frame, rxFull: bool) returns (r: FarmResult)
      requires Configured(Vars()) && CommandReadable(frame)
      modifies this
      ensures (Vars(), r) == Receive(old(Vars()), frame, rxFull) && Configured(Vars())
    {
      if !frame.hdr.typeB {
        DispatchOnCircle(frame.ns, vr, w);
        if frame.ns == vr {
          if !rxFull {
            r := E1();
          } else {
            r := E2();
          }
        } else if ConditionE3(frame.ns, vr, pw) {
          r := E3();
        } else if ConditionE4(frame.ns, vr, pw, nw) {
          r := Discard;
        } else {
          r := E5();
        }
      } else if !frame.hdr.command {
        farmBCnt := (farmBCnt + 1) % 4;
        r := PriorityEnq;
      } else if frame.data[0] == 0 {
        E7();
        r := Ok;
      } else if frame.data[0] == SETVR_BYTE1 && frame.data[1] == SETVR_BYTE2 {
        E8(frame.data[2] as int);
        r := Ok;
      } else {
        r := Error;
      }
    }
  }

  // ---------------------------------------------------------------------------------------
  // Runs
  // ---------------------------------------------------------------------------------------

  datatype FarmEvent = Arrive(frame: Frame, rxFull: bool) | Free

  /** A buffer is released only by a receiver that is not locked out. */
  predicate Legal(f: FarmVars, ev: FarmEvent) {
    match ev
    case Arrive(frame, _) => CommandReadable(frame)
    case Free => f.state != Lockout
  }

  function Step(f: FarmVars, ev: FarmEvent): FarmVars
    requires Legal(f, ev)
  {
    match ev
    case Arrive(frame, rxFull) => Receive(f, frame, rxFull).0
    case Free => Release(f)
  }

  ghost predicate LegalRun(f: FarmVars, run: seq<FarmEvent>)
    decreases |run|
  {
    run == [] || (Legal(f, run[0]) && LegalRun(Step(f, run[0]), run[1..]))
  }

  /** The last V(R) a Set V(R) command put in force, the type-A frames accepted since, the type-B frames
      accepted from the start, and whether a frame is missing: one has come ahead of its turn, or has
      been refused for want of room, and nothing has been accepted or commanded since. */
  datatype Ledger = Ledger(base: Counter, sinceBase: nat, typeB: nat, missing: bool)

  /** The frame is next in sequence, and an open receiver has room for it. */
  predicate Due(f: FarmVars, frame: Frame, rxFull: bool) {
    !frame.hdr.typeB && f.state == Open && frame.ns == f.vr && !rxFull
  }

  /** An open receiver learns that it lacks a frame: this one lies ahead of V(R) within the window, and
      the tests see that it does; or it is due, and there is no room for it. */
  predicate ShowsGap(f: FarmVars, frame: Frame, rxFull: bool) {
    && !frame.hdr.typeB && f.state == Open
    && var d := Distance(frame.ns, f.vr);
    || (d == 0 && rxFull)
    || (1 <= d < f.w / 2 && !MissedByTests(frame.ns, f.vr, f.w))
    || TakenWithoutWindow(frame.ns, f.vr, f.w)
  }

  /** The books are kept from the frames alone, and from whether the receiver is open or locked out. */
  function Enter(led: Ledger, f: FarmVars, ev: FarmEvent): Ledger
    requires Legal(f, ev)
  {
    if ev.Free? then led
    else if !ev.frame.hdr.typeB then
      if Due(f, ev.frame, ev.rxFull) then led.(sinceBase := led.sinceBase + 1, missing := false)
      else if ShowsGap(f, ev.frame, ev.rxFull) then led.(missing := true)
      else led
    else if !ev.frame.hdr.command then led.(typeB := led.typeB + 1)
    else if IsUnlock(ev.frame) then led.(typeB := led.typeB + 1, missing := false)
    else if !IsSetVr(ev.frame) then led
    else if f.state == Lockout then led.(typeB := led.typeB + 1)
    else Ledger(NewVr(ev.frame), 0, led.typeB + 1, false)
  }

  function FinalVars(f: FarmVars, run: seq<FarmEvent>): FarmVars
    requires LegalRun(f, run)
    decreases |run|
  {
    if run == [] then f else FinalVars(Step(f, run[0]), run[1..])
  }

  function FinalLedger(led: Ledger, f: FarmVars, run: seq<FarmEvent>): Ledger
    requires LegalRun(f, run)
    decreases |run|
  {
    if run == [] then led else FinalLedger(Enter(led, f, run[0]), Step(f, run[0]), run[1..])
  }

  ghost predicate Balanced(led: Ledger, f: FarmVars, b0: nat) {
    && f.vr == (led.base + led.sinceBase) % 256
    && f.farmBCnt == (b0 + led.typeB) % 4
    && f.retransmit == led.missing
  }

  /** A type-A frame: the verdict, the new state and the new flags, by circular distance and room. */
  lemma TypeAExactly(f: FarmVars, frame: Frame, rxFull: bool)
    requires Configured(f) && Consistent(f) && !frame.hdr.typeB
    ensures var (g, r) := Receive(f, frame, rxFull);
            var d := Distance(frame.ns, f.vr);
            var outside := d != 0 && (f.w / 2 <= d < 256 - f.w / 2 || MissedByTests(frame.ns, f.vr, f.w))
                           && !TakenWithoutWindow(frame.ns, f.vr, f.w);
            && Configured(g) && Consistent(g) && g.farmBCnt == f.farmBCnt && g.w == f.w
            && (r == Enq <==> Due(f, frame, rxFull)) && g.vr == (if r == Enq then Next(f.vr) else f.vr)
            && (r == Error <==> d == 0 && !rxFull && f.state == Wait) && (r != Enq && r != Error ==> r == Discard)
            && (g.state == Lockout <==> f.state == Lockout || outside)
            && (g.state == Wait <==> !outside && (f.state == Wait || (d == 0 && rxFull && f.state == Open)))
            && g.retransmit == (!Due(f, frame, rxFull) && (f.retransmit || ShowsGap(f, frame, rxFull)))
  {
    DispatchOnCircle(frame.ns, f.vr, f.w);
  }

  /** A type-B frame: data is always accepted, a command if it is one of the two known, and whether or not
      there is room. Unlock opens the receiver; Set V(R) moves V(R), unless it is locked out. */
  lemma TypeBExactly(f: FarmVars, frame: Frame, rxFull: bool)
    requires Configured(f) && Consistent(f) && frame.hdr.typeB && CommandReadable(frame)
    ensures var (g, r) := Receive(f, frame, rxFull);
            var setVr := frame.hdr.command && IsSetVr(frame) && f.state != Lockout;
            && (r == PriorityEnq <==> !frame.hdr.command)
            && (r == Ok <==> frame.hdr.command && (IsUnlock(frame) || IsSetVr(frame)))
            && (r != PriorityEnq && r != Ok ==> r == Error && g == f)
            && Configured(g) && Consistent(g)
            && g.farmBCnt == (if r == Error then f.farmBCnt else (f.farmBCnt + 1) % 4)
            && g.vr == (if setVr then NewVr(frame) else f.vr)
            && g.state == (if setVr || (frame.hdr.command && IsUnlock(frame)) then Open else f.state)
            && g.retransmit == (f.retransmit && !setVr && !(frame.hdr.command && IsUnlock(frame)))
  {
    hide RegionTaken;
  }

  lemma TypeAKeepsBooks(led: Ledger, f: FarmVars, ev: FarmEvent, b0: nat)
    requires Configured(f) && Consistent(f) && Balanced(led, f, b0) && ev.Arrive? && !ev.frame.hdr.typeB
    ensures Configured(Step(f, ev)) && Consistent(Step(f, ev))
    ensures Balanced(Enter(led, f, ev), Step(f, ev), b0)
  {
    NextAddsOne(led.base + led.sinceBase);
    DispatchOnCircle(ev.frame.ns, f.vr, f.w);
    hide Next;
  }

  lemma TypeBKeepsBooks(led: Ledger, f: FarmVars, ev: FarmEvent, b0: nat)
    requires Configured(f) && Consistent(f) && Balanced(led, f, b0) && Legal(f, ev) && ev.Arrive? && ev.frame.hdr.typeB
    ensures Configured(Step(f, ev)) && Consistent(Step(f, ev))
    ensures Balanced(Enter(led, f, ev), Step(f, ev), b0)
  {
    CountAddsOne(b0 + led.typeB);
    hide RegionTaken;
  }

  lemma StepKeepsBooks(led: Ledger, f: FarmVars, ev: FarmEvent, b0: nat)
    requires Configured(f) && Consistent(f) && Legal(f, ev) && Balanced(led, f, b0)
    ensures Configured(Step(f, ev)) && Consistent(Step(f, ev))
    ensures Balanced(Enter(led, f, ev), Step(f, ev), b0)
  {
    if ev.Arrive? {
      hide Receive, Enter;
      if ev.frame.hdr.typeB {
        TypeBKeepsBooks(led, f, ev, b0);
      } else {
        TypeAKeepsBooks(led, f, ev, b0);
      }
    }
  }

  lemma NextAddsOne(n: nat)
    ensures Next(n % 256) == (n + 1) % 256
  {
  }

  lemma CountAddsOne(n: nat)
    ensures (n % 4 + 1) % 4 == (n + 1) % 4
  {
  }

  /** Over every legal run the flags stay consistent with the state, V(R) is the last value set
      plus the frames accepted since, the FARM-B counter counts the accepted type-B frames, and the
      retransmit flag is up exactly while a frame is missing. */
  lemma {:induction false} RunKeepsBooks(led: Ledger, f: FarmVars, run: seq<FarmEvent>, b0: nat)
    requires Configured(f) && Consistent(f) && LegalRun(f, run) && Balanced(led, f, b0)
    ensures Configured(FinalVars(f, run)) && Consistent(FinalVars(f, run))
    ensures Balanced(FinalLedger(led, f, run), FinalVars(f, run), b0)
    decreases |run|
  {
    if run != [] {
      StepKeepsBooks(led, f, run[0], b0);
      RunKeepsBooks(Enter(led, f, run[0]), Step(f, run[0]), run[1..], b0);
    }
  }

  /** Releasing a buffer keeps the flags consistent exactly when the receiver is not locked out:
      in lockout it opens the state and leaves the lockout flag up. */
  lemma ReleaseIsLegalUnlessLockedOut(f: FarmVars)
    requires Consistent(f)
    ensures Consistent(Release(f)) <==> f.state != Lockout
  {
  }
}
