/** Runs of a TM sender and a TM receiver with a lossless channel between them, with stuffing on or off. */
module TmRuns {
  import opened Octets
  import opened TmTypes
  import opened TmMux
  import D = TmDemux

  /** `given` records the packets whose calls succeeded, `current` the packet of the latest call. */
  datatype Link = Link(tx: Tx, rx: D.Rx, given: seq<seq<byte>>, current: seq<byte>)

  datatype Act = Call(packet: seq<byte>, visible: bool) | FramePasses

  /** The packets that both ends handle. */
  predicate Handled(c: Config, stuffing: bool, p: seq<byte>) {
    if stuffing then Packet(c, p) else PlainPacket(c, p)
  }

  /** A refused packet is given again before any other. (The rest, about the frames in the queue,
      always holds in a run.) */
  ghost predicate Possible(c: Config, stuffing: bool, s: Link, a: Act) {
    match a
    case Call(p, _) => Handled(c, stuffing, p) && (s.tx.open ==> p == s.current && s.tx.buffered < |p|) && TxOk(c, s.tx)
    case FramePasses => s.tx.q != [] && WellFormed(c, s.tx.q[0])
  }

  /** The receive queue has room for all packets. */
  ghost predicate Enabled(c: Config, stuffing: bool, s: Link, a: Act) {
    Possible(c, stuffing, s, a) && (a.Call? ==> |s.given| < s.rx.rxCap)
  }

  ghost function After(c: Config, stuffing: bool, s: Link, a: Act): Link
    requires Sane(c) && Possible(c, stuffing, s, a)
  {
    match a
    case Call(p, visible) =>
      var (tx, ok) := if stuffing then Transmit(c, s.tx, visible, p) else TransmitPlain(c, s.tx, p);
      Link(tx, s.rx, if ok then s.given + [p] else s.given, p)
    case FramePasses => s.(tx := s.tx.(q := s.tx.q[1..]), rx := D.Take(c, stuffing, s.rx, s.tx.q[0]).0)
  }

  ghost predicate ValidRun(c: Config, stuffing: bool, s: Link, run: seq<Act>)
    requires Sane(c)
    decreases |run|
  {
    run == [] || (Enabled(c, stuffing, s, run[0]) && ValidRun(c, stuffing, After(c, stuffing, s, run[0]), run[1..]))
  }

  ghost function Final(c: Config, stuffing: bool, s: Link, run: seq<Act>): Link
    requires Sane(c) && ValidRun(c, stuffing, s, run)
    decreases |run|
  {
    if run == [] then s else Final(c, stuffing, After(c, stuffing, s, run[0]), run[1..])
  }

  ghost predicate Fresh(s: Link) {
    s.tx.q == [] && !s.tx.open && s.tx.buffered == 0 && s.rx.loop == D.Closed && s.rx.rx == [] && s.given == []
  }
}
