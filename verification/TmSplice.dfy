/** What TM extraction makes of the frames it gets when others are missing: frame counts are not looked
    at, so octets of different packets are joined, subject to nothing but a length test. */
module TmSplice {
  import opened Octets
  import opened TmTypes
  import opened TmMux
  import opened TmFeed
  import opened TmService
  import D = TmDemux

  // ---------------------------------------------------------------------------------------
  // One frame, stuffing on
  // ---------------------------------------------------------------------------------------

  /** The octets gathered are taken for a whole packet: they have the length expected, or, if that is
      not known yet, the length they themselves tell. */
  predicate TakenForPacket(c: Config, expected: nat, octets: seq<byte>) {
    if expected != 0 then |octets| == expected
    else |octets| < c.maxSdu && PacketLen(c, octets) == Some(|octets|)
  }

  /** A frame in which some packet ends, received while anything else is under way: the octets in front
      of its first header pointer are put behind those gathered, and the whole is delivered exactly when
      it is taken for a packet. The packets that follow in the frame are walked over as ever. */
  lemma ForeignEndExactly(c: Config, t: D.Rx, fdu: Fdu)
    requires Sane(c) && WellFormed(c, fdu) && 0 < fdu.pointer < c.maxData && t.loop.Open? && |t.rx| < t.rxCap
    ensures var joined := t.loop.octets + fdu.data[..fdu.pointer];
            var u := BeforeWalk(c, t, fdu);
            && u.rx == t.rx + (if TakenForPacket(c, t.loop.expected, joined) then [joined] else [])
            && D.Receive(c, t, fdu).0 == D.Walk(c, u, fdu.data, fdu.pointer).0
  {
    assert t.rx + [] == t.rx;
    hide D.Walk, PacketLen;
  }

  /** A frame in which no packet starts does the same, but what is not delivered stays under way; what
      has grown too long is dropped. */
  lemma ForeignMiddleExactly(c: Config, t: D.Rx, fdu: Fdu)
    requires Sane(c) && WellFormed(c, fdu) && fdu.pointer == NO_PACKET_START && t.loop.Open? && |t.rx| < t.rxCap
    ensures var joined := t.loop.octets + fdu.data;
            var expected := t.loop.expected;
            D.Receive(c, t, fdu).0
               == if |joined| > c.maxSdu || (expected == 0 && |joined| == c.maxSdu) then t.(loop := D.Closed)
                  else if TakenForPacket(c, expected, joined) then With(t, [joined])
                  else t.(loop := D.Open(joined, expected))
  {
    hide PacketLen;
  }

  /** With `off` octets of a packet `a` gathered, the end of a packet `b` is joined to them exactly when it
      completes the length of `a`; otherwise `a` is dropped. It does not matter how long `b` is, nor what
      follows it in its frame. The length of `a` is known, or enough of `a` is there to tell it. */
  lemma SpliceExactly(c: Config, t: D.Rx, a: seq<byte>, off: nat, b: seq<byte>, fdu: Fdu)
    requires Sane(c) && Packet(c, a) && Under(t, a, off) && (t.loop.expected == |a| || c.need <= off)
    requires |t.rx| < t.rxCap && WellFormed(c, fdu) && 0 < fdu.pointer < c.maxData && fdu.pointer < |b|
    requires fdu.data[..fdu.pointer] == b[|b| - fdu.pointer..]
    ensures var u := BeforeWalk(c, t, fdu);
            && u.rx == t.rx + (if off + fdu.pointer == |a| then [a[..off] + b[|b| - fdu.pointer..]] else [])
            && D.Receive(c, t, fdu).0 == D.Walk(c, u, fdu.data, fdu.pointer).0
  {
    hide D.Receive;
    ForeignEndExactly(c, t, fdu);
    if c.need <= off {
      var joined := t.loop.octets + fdu.data[..fdu.pointer];
      assert joined[..c.need] == a[..c.need];
      assert PacketLen(c, joined) == Some(|a|);
    }
  }

  /** Two frames suffice: the first of a packet `a` and the last of a packet `b`, with the frames between
      lost. If the first tells the length, they are joined exactly when `a` would have ended where `b`
      does. */
  lemma FirstAndLastSpliceExactly(c: Config, s: D.Rx, a: seq<byte>, b: seq<byte>, rest: nat)
    requires Sane(c) && Packet(c, a) && c.need <= c.maxData < |a| && |s.rx| < s.rxCap
    requires 0 < rest < c.maxData && rest < |b|
    ensures var first, last := NextFdu(c, a, |a|), NextFdu(c, b, rest);
            && AllWellFormed(c, [first, last])
            && FeedAll(c, true, s, [first, last])
               == if c.maxData + rest == |a| then With(s, [a[..c.maxData] + b[|b| - rest..]]) else s.(loop := D.Closed)
  {
    var first, last := NextFdu(c, a, |a|), NextFdu(c, b, rest);
    assert last.data[..rest] == b[|b| - rest..] && last.data[rest..] == IdleOctets(c.maxData - rest);
    hide D.Receive, NextFdu, PacketLen, BeforeWalk;
    FirstFrame(c, s, a);
    var t := D.Receive(c, s, first).0;
    SpliceExactly(c, t, a, c.maxData, b, last);
    WalkMeetsIdle(c, BeforeWalk(c, t, last), last.data, rest);
    BeforeWalkKeepsRoom(c, t, last);
    assert s.rx + [] == s.rx;
    FeedOneMore(c, true, s, [], first);
    FeedOneMore(c, true, s, [first], last);
    assert [] + [first] == [first] && [first] + [last] == [first, last];
  }

  lemma BeforeWalkKeepsRoom(c: Config, s: D.Rx, fdu: Fdu)
    requires WellFormed(c, fdu)
    ensures BeforeWalk(c, s, fdu).rxCap == s.rxCap
  {
  }

  // ---------------------------------------------------------------------------------------
  // Any frames, stuffing on: where the octets of a delivered packet come from
  // ---------------------------------------------------------------------------------------

  /** Walking over whole packets leads from offset `from` to offset `at`. */
  predicate Leads(c: Config, data: seq<byte>, from: nat, at: nat)
    decreases |data| - from
  {
    from <= at < |data| &&
    (at == from ||
     (data[from] != IDLE &&
      match PacketLen(c, data[from..])
      case None => false
      case Some(len) => 0 < len && from + len < |data| && Leads(c, data, from + len, at)))
  }

  /** A packet begins at this offset of the frame. */
  predicate Begins(c: Config, fdu: Fdu, at: nat) {
    fdu.pointer < c.maxData && Leads(c, fdu.data, fdu.pointer, at) && fdu.data[at] != IDLE
  }

  /** The data of the frames that belong to a packet under way. */
  function Middle(q: seq<Fdu>): seq<byte> {
    if q == [] then []
    else Middle(q[..|q| - 1]) + if q[|q| - 1].pointer == NO_PACKET_START then q[|q| - 1].data else []
  }

  /** No packet starts or ends in these frames: they are middle frames or idle ones. */
  predicate NoStart(c: Config, q: seq<Fdu>) {
    forall i :: 0 <= i < |q| ==> q[i].pointer >= c.maxData
  }

  /** The octets are the last of a frame, from where a packet begins, and all the data of the frames
      after it. */
  predicate Gathers(c: Config, q: seq<Fdu>, first: nat, at: nat, octets: seq<byte>) {
    && first < |q| && Begins(c, q[first], at) && NoStart(c, q[first + 1..])
    && octets == q[first].data[at..] + Middle(q[first + 1..])
  }

  /** Where a packet was put together: in one frame, or from one frame to another. */
  datatype Origin = Within(frame: nat, at: nat) | Across(first: nat, at: nat, last: nat)

  /** The part of a frame that a packet under way gets. */
  function Share(fdu: Fdu): seq<byte> {
    if fdu.pointer <= |fdu.data| then fdu.data[..fdu.pointer] else fdu.data
  }

  /** Its octets are those, and it has the length that its beginning tells. */
  predicate Explains(c: Config, q: seq<Fdu>, o: Origin, p: seq<byte>) {
    match o
    case Within(i, at) =>
      && i < |q| && Begins(c, q[i], at) && at + |p| <= |q[i].data| && p == q[i].data[at..at + |p|]
      && PacketLen(c, q[i].data[at..]) == Some(|p|)
    case Across(i, at, j) =>
      && i < j < |q| && Begins(c, q[i], at) && NoStart(c, q[i + 1..j]) && q[j].pointer != ONLY_IDLE
      && p == q[i].data[at..] + Middle(q[i + 1..j]) + Share(q[j])
      && PacketLen(c, p) == Some(|p|)
  }

  /** The origins explain, one by one, what a receiver has delivered beyond the first `n` packets. */
  ghost predicate AllExplained(c: Config, q: seq<Fdu>, origins: seq<Origin>, rx: seq<seq<byte>>, n: nat) {
    && |rx| == n + |origins|
    && forall k :: 0 <= k < |origins| ==> Explains(c, q, origins[k], rx[n + k])
  }

  lemma ExplainsStill(c: Config, q: seq<Fdu>, fdu: Fdu, o: Origin, p: seq<byte>)
    requires Explains(c, q, o, p)
    ensures Explains(c, q + [fdu], o, p)
  {
    if o.Across? {
      assert (q + [fdu])[o.first + 1..o.last] == q[o.first + 1..o.last];
    }
  }

  lemma AllExplainedStill(c: Config, q: seq<Fdu>, fdu: Fdu, origins: seq<Origin>, rx: seq<seq<byte>>, n: nat)
    requires AllExplained(c, q, origins, rx, n)
    ensures AllExplained(c, q + [fdu], origins, rx, n)
  {
    hide Explains;
    forall k | 0 <= k < |origins| ensures Explains(c, q + [fdu], origins[k], rx[n + k]) {
      ExplainsStill(c, q, fdu, origins[k], rx[n + k]);
    }
  }

  lemma OneMoreExplained(c: Config, q: seq<Fdu>, origins: seq<Origin>, rx: seq<seq<byte>>, n: nat, o: Origin,
                         p: seq<byte>)
    requires AllExplained(c, q, origins, rx, n) && Explains(c, q, o, p)
    ensures AllExplained(c, q, origins + [o], rx + [p], n)
  {
    hide Explains;
  }

  lemma {:induction false} LeadsOn(c: Config, data: seq<byte>, from: nat, at: nat, len: nat)
    requires Leads(c, data, from, at) && data[at] != IDLE && PacketLen(c, data[at..]) == Some(len)
    requires 0 < len && at + len < |data|
    ensures Leads(c, data, from, at + len)
    decreases |data| - from
  {
    hide PacketLen;
    if at != from {
      LeadsOn(c, data, from + PacketLen(c, data[from..]).value, at, len);
    }
  }

  /** The walk over a frame delivers packets that lie in it, and leaves open what begins at its end. */
  lemma {:induction false} WalkExplained(c: Config, s: D.Rx, q: seq<Fdu>, i: nat, from: nat, origins: seq<Origin>,
                                         n: nat)
      returns (more: seq<Origin>, at: nat)
    requires Sane(c) && i < |q| && WellFormed(c, q[i]) && q[i].pointer < c.maxData
    requires Leads(c, q[i].data, q[i].pointer, from) && AllExplained(c, q, origins, s.rx, n)
    ensures var t := D.Walk(c, s, q[i].data, from).0;
            && AllExplained(c, q, more, t.rx, n)
            && (t.loop.Open? ==> Begins(c, q[i], at) && t.loop.octets == q[i].data[at..]
                                 && LengthKnown(c, q[i].data[at..], t.loop.expected))
    decreases |q[i].data| - from
  {
    hide PacketLen, AllExplained;
    var data := q[i].data;
    more, at := origins, from;
    if data[from] != IDLE {
      match PacketLen(c, data[from..]) {
        case None =>
        case Some(len) =>
          NeverEmpty(c, data[from..]);
          if from + len <= |data| && |s.rx| < s.rxCap {
            var p := data[from..from + len];
            var t := D.Enqueue(s, p).0;
            OneMoreExplained(c, q, origins, s.rx, n, Within(i, from), p);
            more := origins + [Within(i, from)];
            if from + len < |data| {
              LeadsOn(c, data, q[i].pointer, from, len);
              more, at := WalkExplained(c, t, q, i, from + len, more, n);
            }
          }
      }
    }
  }

  lemma NeverEmpty(c: Config, mem: seq<byte>)
    requires Sane(c)
    ensures PacketLen(c, mem) != Some(0)
  {
  }

  /** An open loop knows the length of its packet, or has yet to learn it. */
  predicate LengthKnown(c: Config, mem: seq<byte>, expected: nat) {
    if expected == 0 then true else PacketLen(c, mem) == Some(expected) && |mem| < expected
  }

  /** The loop is closed, or holds octets from where a packet begins. */
  predicate LoopExplained(c: Config, q: seq<Fdu>, loop: D.Loop, first: nat, at: nat) {
    loop.Open? ==> Gathers(c, q, first, at, loop.octets) && LengthKnown(c, q[first].data[at..], loop.expected)
  }

  /** Octets with the length their packet is known or found to have are explained. */
  lemma LengthTold(c: Config, begun: seq<byte>, more: seq<byte>, expected: nat)
    requires LengthKnown(c, begun, expected) && TakenForPacket(c, expected, begun + more)
    ensures PacketLen(c, begun + more) == Some(|begun + more|)
  {
    if expected != 0 {
      assert (begun + more)[..c.need] == begun[..c.need];
    }
  }

  /** What a frame completes of what was gathered before it. */
  lemma JoinExplained(c: Config, q: seq<Fdu>, fdu: Fdu, loop: D.Loop, first: nat, at: nat, origins: seq<Origin>,
                      rx: seq<seq<byte>>, n: nat)
    requires Sane(c) && WellFormed(c, fdu) && fdu.pointer != ONLY_IDLE && loop.Open?
    requires LoopExplained(c, q, loop, first, at) && AllExplained(c, q + [fdu], origins, rx, n)
    requires TakenForPacket(c, loop.expected, loop.octets + Share(fdu))
    ensures AllExplained(c, q + [fdu], origins + [Across(first, at, |q|)], rx + [loop.octets + Share(fdu)], n)
  {
    hide PacketLen, AllExplained, TakenForPacket, Share, LengthKnown;
    var begun := q[first].data[at..];
    var more := Middle(q[first + 1..]) + Share(fdu);
    assert loop.octets + Share(fdu) == begun + more;
    LengthTold(c, begun, more, loop.expected);
    assert (q + [fdu])[first + 1..|q|] == q[first + 1..];
    OneMoreExplained(c, q + [fdu], origins, rx, n, Across(first, at, |q|), loop.octets + Share(fdu));
  }

  /** A middle frame or an idle one lets the packet under way grow, or leaves it. */
  lemma LoopGrows(c: Config, q: seq<Fdu>, fdu: Fdu, loop: D.Loop, first: nat, at: nat)
    requires LoopExplained(c, q, loop, first, at) && WellFormed(c, fdu) && fdu.pointer >= c.maxData && loop.Open?
    ensures var more := if fdu.pointer == NO_PACKET_START then fdu.data else [];
            Gathers(c, q + [fdu], first, at, loop.octets + more)
  {
    var rest := q[first + 1..];
    assert (q + [fdu])[first + 1..] == rest + [fdu];
    assert (rest + [fdu])[..|rest|] == rest;
    var more := if fdu.pointer == NO_PACKET_START then fdu.data else [];
    assert q[first].data[at..] + Middle(rest) + more == q[first].data[at..] + (Middle(rest) + more);
  }

  /** One frame more, in which no packet starts. */
  lemma MiddleExplained(c: Config, s: D.Rx, q: seq<Fdu>, fdu: Fdu, origins: seq<Origin>, n: nat, first: nat, at: nat)
      returns (more: seq<Origin>)
    requires Sane(c) && WellFormed(c, fdu) && fdu.pointer >= c.maxData
    requires AllExplained(c, q, origins, s.rx, n) && LoopExplained(c, q, s.loop, first, at)
    ensures var t := D.Receive(c, s, fdu).0;
            AllExplained(c, q + [fdu], more, t.rx, n) && LoopExplained(c, q + [fdu], t.loop, first, at)
  {
    hide PacketLen, AllExplained, Explains, Begins, Leads, Gathers, LengthKnown;
    AllExplainedStill(c, q, fdu, origins, s.rx, n);
    more := origins;
    if s.loop.Open? {
      LoopGrows(c, q, fdu, s.loop, first, at);
      assert (q + [fdu])[first] == q[first] by { GathersWithin(c, q, first, at, s.loop.octets); }
      assert s.loop.octets + [] == s.loop.octets;
      if fdu.pointer == NO_PACKET_START && TakenForPacket(c, s.loop.expected, s.loop.octets + fdu.data)
          && |s.rx| < s.rxCap && |s.loop.octets + fdu.data| <= c.maxSdu {
        JoinExplained(c, q, fdu, s.loop, first, at, origins, s.rx, n);
        more := origins + [Across(first, at, |q|)];
      }
    }
  }

  lemma GathersWithin(c: Config, q: seq<Fdu>, first: nat, at: nat, octets: seq<byte>)
    requires Gathers(c, q, first, at, octets)
    ensures first < |q|
  {
  }

  /** One frame more, in which a packet starts. */
  lemma PointerExplained(c: Config, s: D.Rx, q: seq<Fdu>, fdu: Fdu, origins: seq<Origin>, n: nat, first: nat, at: nat)
      returns (more: seq<Origin>, at': nat)
    requires Sane(c) && WellFormed(c, fdu) && fdu.pointer < c.maxData
    requires AllExplained(c, q, origins, s.rx, n) && LoopExplained(c, q, s.loop, first, at)
    ensures var t := D.Receive(c, s, fdu).0;
            AllExplained(c, q + [fdu], more, t.rx, n) && LoopExplained(c, q + [fdu], t.loop, |q|, at')
  {
    hide PacketLen, AllExplained, Explains, Begins, D.Walk, Gathers, LengthKnown;
    AllExplainedStill(c, q, fdu, origins, s.rx, n);
    more, at' := origins, 0;
    if fdu.pointer > 0 && s.loop.Open? && |s.rx| < s.rxCap
       && TakenForPacket(c, s.loop.expected, s.loop.octets + Share(fdu)) {
      JoinExplained(c, q, fdu, s.loop, first, at, origins, s.rx, n);
      more := origins + [Across(first, at, |q|)];
    }
    var u := BeforeWalk(c, s, fdu);
    assert AllExplained(c, q + [fdu], more, u.rx, n);
    var t := D.Receive(c, s, fdu).0;
    if fdu.pointer == 0 || D.Complete(c, s, fdu.data[..fdu.pointer]).1 {
      hide TakenForPacket, D.Complete;
      more, at' := WalkExplained(c, u, q + [fdu], |q|, fdu.pointer, more, n);
      if t.loop.Open? {
        StartGathers(c, q, fdu, at');
      }
    }
  }

  lemma StartGathers(c: Config, q: seq<Fdu>, fdu: Fdu, at: nat)
    requires Begins(c, fdu, at)
    ensures Gathers(c, q + [fdu], |q|, at, fdu.data[at..])
  {
    assert (q + [fdu])[|q| + 1..] == [];
    assert fdu.data[at..] + [] == fdu.data[at..];
  }

  /** Whatever frames a receiver gets, in whatever order and with whatever between them lost: every
      packet it delivers either lies in one of them, from where the walk over its packets leads to, or
      is the end of one from there on, all the data of the middle frames that follow, and what the next
      frame has in front of its first header pointer; and each has the length its beginning tells. */
  lemma {:induction false} DeliveredIsExplained(c: Config, s: D.Rx, q: seq<Fdu>)
      returns (origins: seq<Origin>, first: nat, at: nat)
    requires Sane(c) && AllWellFormed(c, q) && s.loop == D.Closed
    ensures var t := FeedAll(c, true, s, q);
            && s.rx <= t.rx && AllExplained(c, q, origins, t.rx, |s.rx|)
            && LoopExplained(c, q, t.loop, first, at)
    decreases |q|
  {
    hide D.Receive, Explains, LoopExplained;
    FeedOnlyAdds(c, true, s, q);
    if q == [] {
      origins, first, at := [], 0, 0;
      NothingGathered(c, q);
    } else {
      var front, last := q[..|q| - 1], q[|q| - 1];
      assert front + [last] == q;
      origins, first, at := DeliveredIsExplained(c, s, front);
      var u := FeedAll(c, true, s, front);
      if last.pointer < c.maxData {
        origins, at := PointerExplained(c, u, front, last, origins, |s.rx|, first, at);
        first := |front|;
      } else {
        origins := MiddleExplained(c, u, front, last, origins, |s.rx|, first, at);
      }
    }
  }

  lemma NothingGathered(c: Config, q: seq<Fdu>)
    ensures LoopExplained(c, q, D.Closed, 0, 0)
  {
  }

  // ---------------------------------------------------------------------------------------
  // Stuffing off
  // ---------------------------------------------------------------------------------------

  /** A frame of any packet `b` that is not its first. With stuffing off its octets are put behind those
      gathered, whether or not the packet ends in it: what is longer than the largest unit is dropped,
      what has the length expected is delivered, and anything else, even if too long for that, stays
      under way. */
  lemma PlainForeignExactly(c: Config, t: D.Rx, b: seq<byte>, rest: nat)
    requires Sane(c) && t.loop.Open? && |t.rx| < t.rxCap && 0 < rest < |b|
    ensures var fdu := NextFdu(c, b, rest);
            var joined := t.loop.octets + b[|b| - rest..|b| - rest + Min(c.maxData, rest)];
            && WellFormed(c, fdu)
            && D.ReceivePlain(c, t, fdu).0
               == if |joined| > c.maxSdu then t.(loop := D.Closed)
                  else if |joined| == t.loop.expected then With(t, [joined])
                  else t.(loop := D.Open(joined, t.loop.expected))
  {
    var fdu := NextFdu(c, b, rest);
    var part := b[|b| - rest..|b| - rest + Min(c.maxData, rest)];
    assert fdu.data[..|part|] == part;
    if rest >= c.maxData {
      assert fdu.data == part;
    }
  }

  /** Frames that carry on a packet, of one or of different packets. */
  predicate CarryOn(c: Config, q: seq<Fdu>) {
    forall i :: 0 <= i < |q| ==> WellFormed(c, q[i]) && q[i].pointer != 0 && q[i].pointer != ONLY_IDLE
  }

  function Shares(q: seq<Fdu>): seq<seq<byte>> {
    if q == [] then [] else [Share(q[0])] + Shares(q[1..])
  }

  /** The packet completed by octets that come in parts: none if they miss the length. */
  function Completed(octets: seq<byte>, expected: nat, parts: seq<seq<byte>>): Option<seq<byte>>
    decreases |parts|
  {
    if parts == [] then None
    else if |octets + parts[0]| == expected then Some(octets + parts[0])
    else Completed(octets + parts[0], expected, parts[1..])
  }

  /** That is so exactly when the parts up to some one of them add up to the length expected. */
  lemma {:induction false} CompletedExactly(octets: seq<byte>, expected: nat, parts: seq<seq<byte>>)
    requires forall i :: 0 <= i < |parts| ==> parts[i] != []
    ensures Completed(octets, expected, parts).Some?
            <==> exists n :: 0 < n <= |parts| && |octets| + |Flatten(parts[..n])| == expected
    ensures forall n :: 0 < n <= |parts| && |octets| + |Flatten(parts[..n])| == expected ==>
              Completed(octets, expected, parts) == Some(octets + Flatten(parts[..n]))
    decreases |parts|
  {
    if parts != [] {
      var longer, rest := octets + parts[0], parts[1..];
      CompletedExactly(longer, expected, rest);
      FlattenOne(parts, 1);
      assert Flatten(parts[..1]) == parts[0];
      forall n | 0 < n <= |parts|
        ensures Flatten(parts[..n]) == parts[0] + Flatten(rest[..n - 1])
        ensures n > 1 ==> |Flatten(rest[..n - 1])| > 0
      {
        FlattenOne(parts, n);
        if n > 1 { FlattenOne(rest, n - 1); }
      }
      if |longer| != expected && Completed(longer, expected, rest).Some? {
        var n :| 0 < n <= |rest| && |longer| + |Flatten(rest[..n])| == expected;
        assert |octets| + |Flatten(parts[..n + 1])| == expected;
      }
      forall n | 0 < n <= |parts| && |octets| + |Flatten(parts[..n])| == expected
        ensures Completed(octets, expected, parts) == Some(octets + Flatten(parts[..n]))
      {
        assert octets + (parts[0] + Flatten(rest[..n - 1])) == longer + Flatten(rest[..n - 1]);
        if n > 1 {
          assert |longer| + |Flatten(rest[..n - 1])| == expected;
        }
      }
    }
  }

  lemma FlattenOne(parts: seq<seq<byte>>, n: nat)
    requires 0 < n <= |parts|
    ensures Flatten(parts[..n]) == parts[0] + Flatten(parts[1..][..n - 1])
  {
    assert parts[..n][1..] == parts[1..][..n - 1];
  }

  lemma {:induction false} ClosedStays(c: Config, t: D.Rx, q: seq<Fdu>)
    requires Sane(c) && CarryOn(c, q) && t.loop == D.Closed
    ensures FeedAll(c, false, t, q) == t
    decreases |q|
  {
    if q != [] {
      ClosedStays(c, t, q[..|q| - 1]);
    }
  }

  lemma PlainStep(c: Config, t: D.Rx, fdu: Fdu)
    requires Sane(c) && WellFormed(c, fdu) && fdu.pointer != 0 && fdu.pointer != ONLY_IDLE
    requires t.loop.Open? && |t.rx| < t.rxCap
    ensures var joined := t.loop.octets + Share(fdu);
            D.Take(c, false, t, fdu).0
               == if |joined| > c.maxSdu then t.(loop := D.Closed)
                  else if |joined| == t.loop.expected then With(t, [joined])
                  else t.(loop := D.Open(joined, t.loop.expected))
  {
    assert fdu.pointer == NO_PACKET_START ==> Share(fdu) == fdu.data;
  }

  lemma {:induction false} TooLongStays(octets: seq<byte>, expected: nat, parts: seq<seq<byte>>)
    requires |octets| > expected
    ensures Completed(octets, expected, parts) == None
    decreases |parts|
  {
    if parts != [] {
      TooLongStays(octets + parts[0], expected, parts[1..]);
    }
  }

  /** Any number of frames that carry on packets, of whichever packets: with stuffing off exactly one
      packet is delivered if their octets complete the length expected, unless that is longer than the
      largest unit, and none if they miss it. */
  lemma {:induction false} PlainMixtureExactly(c: Config, t: D.Rx, q: seq<Fdu>)
    requires Sane(c) && CarryOn(c, q) && t.loop.Open? && |t.rx| < t.rxCap
    ensures var whole := Completed(t.loop.octets, t.loop.expected, Shares(q));
            FeedAll(c, false, t, q).rx
               == t.rx + (if whole.Some? && t.loop.expected <= c.maxSdu then [whole.value] else [])
    decreases |q|
  {
    hide D.Take, Share;
    if q == [] {
      assert t.rx + [] == t.rx;
    } else {
      var u := D.Take(c, false, t, q[0]).0;
      var joined := t.loop.octets + Share(q[0]);
      PlainStep(c, t, q[0]);
      FeedFirst(c, false, t, q);
      if u.loop.Open? {
        PlainMixtureExactly(c, u, q[1..]);
      } else {
        ClosedStays(c, u, q[1..]);
        if |joined| > c.maxSdu && t.loop.expected <= c.maxSdu {
          TooLongStays(joined, t.loop.expected, Shares(q[1..]));
        }
        assert t.rx + [] == t.rx;
      }
    }
  }
}
