/** The sending end of TM multiplexing (src/osdlp_tm.c:222-414): packets are laid one behind the other
    into frame data units, the last of which is filled up while it still waits in the queue. */
module TmMux {
  import opened Octets
  import opened TmTypes
  import Division

  /** The transmission queue, and how much of the current packet is in it if the queue refused the
      rest. */
  datatype Tx = Tx(q: seq<Fdu>, cap: nat, open: bool, buffered: nat)

  // ---------------------------------------------------------------------------------------
  // How full the last frame is
  // ---------------------------------------------------------------------------------------

  /** The end of the packets that start at `at`; zero when the hook fails. The frame header length is
      added to every packet end before it is compared with the end of the data. */
  function PacketsEnd(c: Config, data: seq<byte>, at: nat): nat
    decreases |data| - at
  {
    match if at <= |data| then PacketLen(c, data[at..]) else None
    case None => 0
    case Some(len) =>
      if len + c.headerLen + at >= |data| || len == 0 then at + len
      else if data[at + len] == IDLE then at + len
      else PacketsEnd(c, data, at + len)
  }

  /** Octets of the frame in use. */
  function Residue(c: Config, fdu: Fdu): nat
    requires WellFormed(c, fdu)
  {
    if fdu.pointer == ONLY_IDLE then 0
    else if fdu.pointer == NO_PACKET_START then c.maxData
    else if fdu.data[fdu.pointer] == IDLE then fdu.pointer
    else PacketsEnd(c, fdu.data, fdu.pointer)
  }

  /** The packets `pkts` lie in the data from offset `from` to offset `to`. */
  ghost predicate Lies(c: Config, data: seq<byte>, from: nat, pkts: seq<seq<byte>>, to: nat) {
    && |data| == c.maxData && from <= to <= |data|
    && (forall i :: 0 <= i < |pkts| ==> Told(c, pkts[i]))
    && data[from..to] == Flatten(pkts)
  }

  /** They do, and only idle octets follow. */
  ghost predicate Layout(c: Config, data: seq<byte>, from: nat, pkts: seq<seq<byte>>, to: nat) {
    Lies(c, data, from, pkts, to) && data[to..] == IdleOctets(|data| - to)
  }

  lemma FirstPacket(c: Config, data: seq<byte>, from: nat, pkts: seq<seq<byte>>, to: nat)
    requires Lies(c, data, from, pkts, to) && pkts != []
    ensures var p := pkts[0];
            && from + |p| <= to && data[from..from + |p|] == p
            && Lies(c, data, from + |p|, pkts[1..], to)
            && data[from] != IDLE
            && PacketLen(c, data[from..]) == Some(|p|)
  {
    var p := pkts[0];
    var all := data[from..to];
    assert all == p + Flatten(pkts[1..]);
    assert data[from..from + |p|] == all[..|p|] == p;
    assert data[from + |p|..to] == all[|p|..] == Flatten(pkts[1..]);
    assert data[from] == p[0];
    assert p <= data[from..];
    BeginningTellsLength(c, p, data[from..]);
  }

  lemma IdleFollows(c: Config, data: seq<byte>, from: nat, pkts: seq<seq<byte>>, to: nat)
    requires Layout(c, data, from, pkts, to) && to < |data|
    ensures data[to] == IDLE
  {
    assert data[to] == data[to..][0];
  }

  /** The length of the last packet, or the whole length when there is none. */
  function LastLen(pkts: seq<seq<byte>>): nat {
    if pkts == [] then 0 else |pkts[|pkts| - 1]|
  }

  lemma {:induction false} PacketsEndExactly(c: Config, data: seq<byte>, from: nat, pkts: seq<seq<byte>>, to: nat)
    requires Layout(c, data, from, pkts, to) && pkts != []
    ensures PacketsEnd(c, data, from) == to <==> (|pkts| == 1 || to - LastLen(pkts) + c.headerLen < |data|)
    ensures PacketsEnd(c, data, from) <= to
    decreases |pkts|
  {
    hide PacketLen;
    FirstPacket(c, data, from, pkts, to);
    var p := pkts[0];
    if to < |data| { IdleFollows(c, data, from, pkts, to); }
    if |pkts| == 1 {
      assert Flatten(pkts[1..]) == [];
      assert from + |p| == to;
    } else {
      FirstPacket(c, data, from + |p|, pkts[1..], to);
      LastEnds(c, data, from + |p|, pkts[1..], to);
      assert LastLen(pkts[1..]) == LastLen(pkts);
      if |p| + c.headerLen + from < |data| {
        PacketsEndExactly(c, data, from + |p|, pkts[1..], to);
      }
    }
  }

  lemma {:induction false} LastEnds(c: Config, data: seq<byte>, from: nat, pkts: seq<seq<byte>>, to: nat)
    requires Layout(c, data, from, pkts, to) && pkts != []
    ensures from <= to - LastLen(pkts)
    decreases |pkts|
  {
    FirstPacket(c, data, from, pkts, to);
    if |pkts| > 1 {
      LastEnds(c, data, from + |pkts[0]|, pkts[1..], to);
    }
  }

  /** The octets in use are found exactly, unless the last of several packets starts within a header
      length of the end of the data: then the search stops short of it, and the next packet will be
      laid over it. */
  lemma ResidueExactly(c: Config, fdu: Fdu, pkts: seq<seq<byte>>, to: nat)
    requires c.maxData < ONLY_IDLE && WellFormed(c, fdu) && fdu.pointer < c.maxData
        && Layout(c, fdu.data, fdu.pointer, pkts, to)
    requires pkts == [] ==> to == fdu.pointer
    ensures Residue(c, fdu) == to <==> (|pkts| <= 1 || to - LastLen(pkts) + c.headerLen < c.maxData)
    ensures Residue(c, fdu) <= to
  {
    if pkts == [] {
      assert fdu.data[to] == fdu.data[to..][0];
    } else {
      FirstPacket(c, fdu.data, fdu.pointer, pkts, to);
      PacketsEndExactly(c, fdu.data, fdu.pointer, pkts, to);
    }
  }

  /** Where the search comes to something that is neither idle nor tells its length, the frame counts as
      empty, whatever packets lie in front. */
  lemma {:induction false} UntoldCountsAsNothing(c: Config, data: seq<byte>, from: nat, pkts: seq<seq<byte>>, to: nat)
    requires Lies(c, data, from, pkts, to) && to < |data| && (pkts != [] ==> to + c.headerLen < |data|)
    requires data[to] != IDLE && PacketLen(c, data[to..]) == None
    ensures PacketsEnd(c, data, from) == 0
    ensures from < c.maxData < ONLY_IDLE ==> Residue(c, Fdu(from, data)) == 0
    decreases |pkts|
  {
    hide PacketLen;
    if pkts != [] {
      FirstPacket(c, data, from, pkts, to);
      UntoldCountsAsNothing(c, data, from + |pkts[0]|, pkts[1..], to);
    } else {
      assert data[from..to] == [];
    }
  }

  /** No packet longer than a frame header is ever missed. */
  lemma LongPacketsAreSeen(c: Config, fdu: Fdu, pkts: seq<seq<byte>>, to: nat)
    requires c.maxData < ONLY_IDLE && WellFormed(c, fdu) && fdu.pointer < c.maxData
        && Layout(c, fdu.data, fdu.pointer, pkts, to)
    requires forall i :: 0 <= i < |pkts| ==> c.headerLen < |pkts[i]|
    ensures Residue(c, fdu) == to
  {
    if pkts != [] { LastEnds(c, fdu.data, fdu.pointer, pkts, to); } else { assert Flatten(pkts) == []; }
    ResidueExactly(c, fdu, pkts, to);
  }

  // ---------------------------------------------------------------------------------------
  // Transmission
  // ---------------------------------------------------------------------------------------

  /** Frames needed for `n` octets; at least one. */
  function FramesFor(n: nat, maxData: nat): nat
    requires 0 < maxData
  {
    n / maxData + if n / maxData == 0 || n % maxData != 0 then 1 else 0
  }

  lemma OneFrame(n: nat, maxData: nat)
    requires 0 < maxData
    ensures FramesFor(n, maxData) == 1 <==> n <= maxData
    ensures FramesFor(n, maxData) >= 1
  {
    if n < maxData {
      Division.Small(n, maxData);
    } else {
      Division.OneLess(n, maxData);
      if n > maxData && n - maxData < maxData {
        Division.Small(n - maxData, maxData);
      } else if n > maxData {
        Division.OneLess(n - maxData, maxData);
      } else {
        Division.Small(0, maxData);
      }
    }
  }

  lemma OneFrameLess(n: nat, maxData: nat)
    requires 0 < maxData < n
    ensures FramesFor(n, maxData) == 1 + FramesFor(n - maxData, maxData)
  {
    Division.OneLess(n, maxData);
    if n - maxData < maxData {
      Division.Small(n - maxData, maxData);
    } else {
      Division.OneLess(n - maxData, maxData);
    }
  }

  /** The frame that carries the packet on from where `remaining` octets are left. */
  function NextFdu(c: Config, p: seq<byte>, remaining: nat): (fdu: Fdu)
    requires remaining <= |p|
    ensures |fdu.data| == c.maxData
  {
    var pointer := if remaining == |p| then 0 else if remaining >= c.maxData then NO_PACKET_START else remaining;
    var bytes := Min(c.maxData, remaining);
    Fdu(pointer, p[|p| - remaining..|p| - remaining + bytes] + IdleOctets(c.maxData - bytes))
  }

  /** Sends what is left of the packet in `n` frames. A refused frame leaves the transmission open. */
  function Emit(c: Config, tx: Tx, p: seq<byte>, remaining: nat, n: nat): (Tx, bool)
    requires remaining <= |p|
    decreases n
  {
    if n == 0 then (tx.(open := false, buffered := 0), true)
    else if |tx.q| < tx.cap then
      Emit(c, tx.(q := tx.q + [NextFdu(c, p, remaining)]), p, remaining - Min(c.maxData, remaining), n - 1)
    else (tx.(open := true, buffered := |p| - remaining), false)
  }

  /** Lays the packet, or as much of it as fits, behind the `used` octets of the frame. */
  function Stuffed(c: Config, fdu: Fdu, used: nat, p: seq<byte>): (r: Fdu)
    requires |fdu.data| == c.maxData && used <= c.maxData
    ensures |r.data| == c.maxData && r.pointer == fdu.pointer
  {
    var bytes := Min(c.maxData - used, |p|);
    Fdu(fdu.pointer, fdu.data[..used] + p[..bytes] + IdleOctets(c.maxData - used - bytes))
  }

  ghost predicate TxOk(c: Config, tx: Tx) {
    && (forall i :: 0 <= i < |tx.q| ==> WellFormed(c, tx.q[i]))
    && (!tx.open ==> tx.buffered == 0)
  }

  /** What one call does; `visible` says whether the queue lets the sender at its last frame. */
  function Transmit(c: Config, tx: Tx, visible: bool, p: seq<byte>): (Tx, bool)
    requires 0 < c.maxData && TxOk(c, tx) && tx.buffered <= |p|
  {
    if tx.q == [] || tx.open then
      var remaining := |p| - tx.buffered;
      Emit(c, tx, p, remaining, FramesFor(remaining, c.maxData))
    else
      var last := |tx.q| - 1;
      var used := if visible then Residue(c, tx.q[last]) else c.maxData;
      if used >= c.maxData then Emit(c, tx, p, |p|, FramesFor(|p|, c.maxData))
      else
        var n := FramesFor(|p| + used, c.maxData);
        OneFrame(|p| + used, c.maxData);
        var tx' := tx.(q := tx.q[last := Stuffed(c, tx.q[last], used, p)]);
        Emit(c, tx', p, if n == 1 then 0 else |p| - (c.maxData - used), n - 1)
  }

  /** What one call does with stuffing off: every packet has frames of its own. */
  function TransmitPlain(c: Config, tx: Tx, p: seq<byte>): (Tx, bool)
    requires 0 < c.maxData && tx.buffered <= |p| && (!tx.open ==> tx.buffered == 0)
  {
    var remaining := |p| - tx.buffered;
    Emit(c, tx, p, remaining, FramesFor(remaining, c.maxData))
  }

  /** A sender with one frame in its queue and no transmission open. */
  function OneQueued(fdu: Fdu, cap: nat): Tx {
    Tx([fdu], cap, false, 0)
  }

  /** The frame is filled up with the whole packet. */
  lemma FilledUp(c: Config, fdu: Fdu, cap: nat, used: nat, p: seq<byte>)
    requires c.maxData < ONLY_IDLE && WellFormed(c, fdu)
    requires Residue(c, fdu) == used < c.maxData && used + |p| <= c.maxData
    ensures WellFormed(c, Stuffed(c, fdu, used, p))
    ensures Transmit(c, OneQueued(fdu, cap), true, p) == (OneQueued(Stuffed(c, fdu, used, p), cap), true)
  {
    hide Residue, Stuffed, FramesFor;
    OneFrame(|p| + used, c.maxData);
    var tx, filled := OneQueued(fdu, cap), OneQueued(Stuffed(c, fdu, used, p), cap);
    assert tx.q[|tx.q| - 1] == fdu;
    assert tx.(q := tx.q[0 := Stuffed(c, fdu, used, p)]) == filled;
    assert Emit(c, filled, p, 0, 0) == (filled, true);
  }

  lemma FirstQueued(c: Config, cap: nat, visible: bool, p: seq<byte>)
    requires 0 < cap && 0 < |p| <= c.maxData
    ensures Transmit(c, Tx([], cap, false, 0), visible, p) == (OneQueued(NextFdu(c, p, |p|), cap), true)
  {
    hide NextFdu, FramesFor;
    OneFrame(|p|, c.maxData);
    var tx := Tx([], cap, false, 0);
    var tx' := tx.(q := tx.q + [NextFdu(c, p, |p|)]);
    assert tx.q + [NextFdu(c, p, |p|)] == [NextFdu(c, p, |p|)];
    assert Emit(c, tx', p, 0, 0) == (tx', true);
    assert Emit(c, tx, p, |p|, 1) == Emit(c, tx', p, 0, 0);
  }

  /** A short packet is overwritten: of three calls from an empty queue, the second has a packet that
      lies within a header length of the end. The third packet is laid where the second was, behind the
      first. */
  lemma ShortPacketIsOverwritten(c: Config, cap: nat, visible: bool, a: seq<byte>, b: seq<byte>, p: seq<byte>)
      returns (f1: Fdu, f2: Fdu, f3: Fdu)
    requires c.maxData < ONLY_IDLE && 0 < cap && Told(c, a) && Told(c, b) && Told(c, p)
    requires |a| + |b| <= c.maxData <= |a| + c.headerLen && |a| + |p| <= c.maxData
    ensures WellFormed(c, f1) && Transmit(c, Tx([], cap, false, 0), visible, a) == (OneQueued(f1, cap), true)
    ensures WellFormed(c, f2) && Transmit(c, OneQueued(f1, cap), true, b) == (OneQueued(f2, cap), true)
    ensures Transmit(c, OneQueued(f2, cap), true, p) == (OneQueued(f3, cap), true)
    ensures Lies(c, f2.data, 0, [a, b], |a| + |b|) && Lies(c, f3.data, 0, [a, p], |a| + |p|)
  {
    f1 := NextFdu(c, a, |a|);
    f2, f3 := Stuffed(c, f1, |a|, b), Stuffed(c, Stuffed(c, f1, |a|, b), |a|, p);
    assert Flatten([a]) == a + Flatten([a][1..]) == a;
    assert f1.data == a + IdleOctets(c.maxData - |a|) && f1.pointer == 0;
    assert f1.data[0..|a|] == a && f1.data[|a|..] == IdleOctets(c.maxData - |a|);
    ResidueExactly(c, f1, [a], |a|);
    StuffedPair(c, f1, a, b);
    hide NextFdu, Stuffed, Residue, Transmit, Flatten;
    FirstQueued(c, cap, visible, a);
    FilledUp(c, f1, cap, |a|, b);
    SearchStopsShort(c, f2, a, b);
    StuffedPair(c, f2, a, p);
    FilledUp(c, f2, cap, |a|, p);
  }

  lemma PairFlattens(a: seq<byte>, b: seq<byte>)
    ensures Flatten([a, b]) == a + b
  {
    assert [a, b][1..] == [b] && [b][1..] == [];
    assert Flatten([b]) == b + Flatten([b][1..]) == b;
  }

  lemma StuffedPair(c: Config, fdu: Fdu, a: seq<byte>, b: seq<byte>)
    requires |fdu.data| == c.maxData && Told(c, a) && Told(c, b) && |a| + |b| <= c.maxData && fdu.data[..|a|] == a
    ensures var r := Stuffed(c, fdu, |a|, b);
            && r.data[..|a|] == a && Layout(c, r.data, 0, [a, b], |a| + |b|)
  {
    PairFlattens(a, b);
    var r := Stuffed(c, fdu, |a|, b);
    assert b[..|b|] == b;
    assert r.data == a + b + IdleOctets(c.maxData - |a| - |b|);
    assert r.data[0..|a| + |b|] == a + b;
  }

  lemma SearchStopsShort(c: Config, fdu: Fdu, a: seq<byte>, b: seq<byte>)
    requires c.maxData < ONLY_IDLE && WellFormed(c, fdu) && fdu.pointer == 0
    requires Layout(c, fdu.data, 0, [a, b], |a| + |b|) && c.maxData <= |a| + c.headerLen
    ensures Residue(c, fdu) == |a|
  {
    FirstPacket(c, fdu.data, 0, [a, b], |a| + |b|);
  }

  /** Reads the length from the first octet of the two kinds of packet. */
  function ByFirstOctet(s: seq<byte>): Option<nat> {
    if |s| == 1 && s[0] == 14 then Some(14) else if |s| == 1 && s[0] == 5 then Some(5) else None
  }

  /** Such packets exist. */
  lemma ShortPacketExample() returns (c: Config, a: seq<byte>, b: seq<byte>, p: seq<byte>)
    ensures Sane(c) && Told(c, a) && Told(c, b) && Told(c, p)
    ensures |a| + |b| <= c.maxData <= |a| + c.headerLen && |a| + |p| <= c.maxData
  {
    c := Config(20, 6, 100, 1, ByFirstOctet);
    a, b := [14, 0, 0, 0, 0, 0, 0, 0, 0, 0, 0, 0, 0, 0], [5, 0, 0, 0, 0];
    p := b;
    assert a[..1] == [14] && b[..1] == [5];
  }

  // ---------------------------------------------------------------------------------------
  // The frames of one packet
  // ---------------------------------------------------------------------------------------

  /** The frames that carry the packet on from where `remaining` octets are left. */
  function FramesOf(c: Config, p: seq<byte>, remaining: nat): seq<Fdu>
    requires remaining <= |p| && 0 < c.maxData
    decreases remaining
  {
    if remaining == 0 then []
    else [NextFdu(c, p, remaining)] + FramesOf(c, p, remaining - Min(c.maxData, remaining))
  }

  /** The octets of the packet in these frames: what stands before the idle octets. */
  function PacketOctets(c: Config, fs: seq<Fdu>, remaining: nat): seq<byte> {
    if fs == [] || |fs[0].data| < Min(c.maxData, remaining) then []
    else fs[0].data[..Min(c.maxData, remaining)] + PacketOctets(c, fs[1..], remaining - Min(c.maxData, remaining))
  }

  lemma FramesSplit(c: Config, p: seq<byte>, remaining: nat)
    requires 0 < remaining <= |p| && 0 < c.maxData
    ensures FramesOf(c, p, remaining) == [NextFdu(c, p, remaining)]
            + if remaining <= c.maxData then [] else FramesOf(c, p, remaining - c.maxData)
  {
    hide NextFdu;
  }

  /** The frames of a packet carry its octets, all of them and in order. */
  lemma {:induction false} FramesCarryPacket(c: Config, p: seq<byte>, remaining: nat)
    requires remaining <= |p| && 0 < c.maxData
    ensures PacketOctets(c, FramesOf(c, p, remaining), remaining) == p[|p| - remaining..]
    decreases remaining
  {
    if remaining > 0 {
      var bytes := Min(c.maxData, remaining);
      var fdu, rest := NextFdu(c, p, remaining), FramesOf(c, p, remaining - bytes);
      FramesCarryPacket(c, p, remaining - bytes);
      assert fdu.data[..bytes] == p[|p| - remaining..|p| - remaining + bytes];
      FramesSplit(c, p, remaining);
      assert rest == if remaining <= c.maxData then [] else FramesOf(c, p, remaining - c.maxData);
      hide NextFdu, FramesOf;
      var fs := [fdu] + rest;
      assert fs[0] == fdu && fs[1..] == rest;
      assert PacketOctets(c, fs, remaining) == fdu.data[..bytes] + PacketOctets(c, rest, remaining - bytes);
      assert p[|p| - remaining..] == p[|p| - remaining..|p| - remaining + bytes] + p[|p| - (remaining - bytes)..];
    }
  }

  /** The octets of one frame: those of the packet, and behind its end 0xe0; eleven ones for a pointer say that no
      packet starts. */
  lemma FrameHolds(c: Config, p: seq<byte>, remaining: nat)
    requires remaining <= |p| && c.maxData < ONLY_IDLE
    ensures var fdu := NextFdu(c, p, remaining);
            && (forall k :: 0 <= k < c.maxData ==>
                  fdu.data[k] == if k < remaining then p[|p| - remaining + k] else 0xe0)
            && (fdu.pointer == 0x7ff <==> c.maxData <= remaining < |p|)
  {
  }

  /** The first frame of a whole packet points at its start, one in which the packet ends points behind
      its end, and one it fills to the end says that no packet starts there. */
  lemma {:induction false} PointersTellPacket(c: Config, p: seq<byte>, remaining: nat, i: nat)
    requires remaining <= |p| && 0 < c.maxData && i < |FramesOf(c, p, remaining)|
    ensures var fs := FramesOf(c, p, remaining);
            fs[i].pointer == if i == 0 && remaining == |p| then 0
                             else if i == |fs| - 1 && remaining % c.maxData != 0 then remaining % c.maxData
                             else NO_PACKET_START
    decreases remaining
  {
    var bytes := Min(c.maxData, remaining);
    var fdu, rest := NextFdu(c, p, remaining), FramesOf(c, p, remaining - bytes);
    assert FramesOf(c, p, remaining) == [fdu] + rest;
    if remaining < c.maxData {
      Division.Small(remaining, c.maxData);
      assert rest == [];
    } else {
      Division.OneLess(remaining, c.maxData);
      if remaining == c.maxData {
        Division.Small(0, c.maxData);
        assert rest == [];
      } else {
        assert |rest| >= 1;
        hide NextFdu, FramesOf;
        if i > 0 {
          PointersTellPacket(c, p, remaining - bytes, i - 1);
        }
      }
    }
  }

  /** A call appends a prefix of the frames of what is left of the packet; the offset it records when
      the queue refuses a frame is where the missing ones go on. */
  lemma {:induction false} EmitAppendsFrames(c: Config, tx: Tx, p: seq<byte>, remaining: nat, n: nat)
      returns (fs: seq<Fdu>)
    requires 0 < remaining <= |p| && 0 < c.maxData && n == FramesFor(remaining, c.maxData)
    ensures var (t, ok) := Emit(c, tx, p, remaining, n);
            && t.q == tx.q + fs && t.open == !ok && t.buffered <= |p|
            && FramesOf(c, p, remaining) == fs + if ok then [] else FramesOf(c, p, |p| - t.buffered)
    decreases n
  {
    hide NextFdu, FramesFor, FramesOf;
    OneFrame(remaining, c.maxData);
    FramesSplit(c, p, remaining);
    fs := [];
    if |tx.q| < tx.cap {
      var fdu := NextFdu(c, p, remaining);
      var tx' := tx.(q := tx.q + [fdu]);
      if remaining <= c.maxData {
        fs := [fdu];
        assert Emit(c, tx, p, remaining, n) == (tx'.(open := false, buffered := 0), true);
      } else {
        OneFrameLess(remaining, c.maxData);
        var more := EmitAppendsFrames(c, tx', p, remaining - c.maxData, n - 1);
        fs := [fdu] + more;
        assert tx'.q + more == tx.q + fs;
      }
    }
  }
}
