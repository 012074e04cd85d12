/** The receiving end of TM multiplexing (src/osdlp_tm.c:504-746): packets are rebuilt from frame
    data units with the help of the first header pointer. */
module TmDemux {
  import opened Octets
  import opened TmTypes

  datatype RxResult = RxOk | RxPending | RxError | RxOid | RxDenied | RxWrongCrc

  /** A packet under way: the octets buffered so far, and its length if known already (else zero). */
  datatype Loop = Closed | Open(octets: seq<byte>, expected: nat)

  datatype Rx = Rx(loop: Loop, rx: seq<seq<byte>>, rxCap: nat)

  function Enqueue(s: Rx, packet: seq<byte>): (Rx, bool) {
    if |s.rx| < s.rxCap then (s.(loop := Closed, rx := s.rx + [packet]), true) else (s.(loop := Closed), false)
  }

  /** Takes the packets of a frame one after the other from offset `at` on. */
  function Walk(c: Config, s: Rx, data: seq<byte>, at: nat): (Rx, RxResult)
    requires at < |data|
    decreases |data| - at
  {
    if data[at] == IDLE then (s.(loop := Closed), RxOk)
    else
      match PacketLen(c, data[at..])
      case None => (s.(loop := Open(data[at..], 0)), RxPending)
      case Some(len) =>
        if at + len > |data| then (s.(loop := Open(data[at..], len)), RxPending)
        else
          var (t, ok) := Enqueue(s, data[at..at + len]);
          if !ok then (t, RxDenied)
          else if at + len == |data| then (t, RxOk)
          else if len == 0 then (t, RxError)
          else Walk(c, t, data, at + len)
  }

  /** No packet starts in the frame: it belongs to the packet under way. */
  function Continue(c: Config, s: Rx, data: seq<byte>): (Rx, RxResult) {
    match s.loop
    case Closed => (s, RxError)
    case Open(octets, expected) =>
      var longer := octets + data;
      if expected == 0 && |longer| >= c.maxSdu then (s.(loop := Closed), RxError)
      else
        var len := if expected == 0 then PacketLen(c, longer) else None;
        if len.Some? then
          if |longer| == len.value then Delivered(Enqueue(s, longer)) else (s.(loop := Open(longer, 0)), RxPending)
        else if |longer| > c.maxSdu then (s.(loop := Closed), RxError)
        else if |longer| == expected then Delivered(Enqueue(s, longer))
        else (s.(loop := Open(longer, expected)), RxPending)
  }

  function Delivered(r: (Rx, bool)): (Rx, RxResult) {
    (r.0, if r.1 then RxOk else RxDenied)
  }

  /** The octets before the first packet start complete the packet under way, or it is dropped. */
  function Complete(c: Config, s: Rx, head: seq<byte>): (Rx, bool) {
    match s.loop
    case Closed => (s, true)
    case Open(octets, expected) =>
      var longer := octets + head;
      if expected == 0 then
        var len := if |longer| < c.maxSdu then PacketLen(c, longer) else None;
        if len == Some(|longer|) then Enqueue(s, longer)
        else if len.Some? then (s.(loop := Closed), true)
        else (s, true)
      else if |longer| == expected then Enqueue(s, longer)
      else (s, true)
  }

  /** What one frame data unit does to a receiver that expects stuffed packets. */
  function Receive(c: Config, s: Rx, fdu: Fdu): (Rx, RxResult)
    requires WellFormed(c, fdu) && c.maxData > 0
  {
    if fdu.pointer == ONLY_IDLE then (s, RxOid)
    else if fdu.pointer == 0 then Walk(c, s, fdu.data, 0)
    else if fdu.pointer == NO_PACKET_START then Continue(c, s, fdu.data)
    else
      var (t, ok) := Complete(c, s, fdu.data[..fdu.pointer]);
      if !ok then (t, RxDenied) else Walk(c, t, fdu.data, fdu.pointer)
  }

  /** A frame that starts a packet, with stuffing off. */
  function StartPlain(c: Config, s: Rx, data: seq<byte>): (Rx, RxResult) {
    match PacketLen(c, data)
    case None => (s, RxError)
    case Some(len) =>
      if len > |data| then (s.(loop := Open(data, len)), RxPending) else Delivered(Enqueue(s, data[..len]))
  }

  /** A frame that carries on a packet, with stuffing off. */
  function ContinuePlain(c: Config, s: Rx, part: seq<byte>): (Rx, RxResult) {
    match s.loop
    case Closed => (s, RxError)
    case Open(octets, expected) =>
      var longer := octets + part;
      if |longer| > c.maxSdu then (s.(loop := Closed), RxError)
      else if |longer| == expected then Delivered(Enqueue(s, longer))
      else (s.(loop := Open(longer, expected)), RxPending)
  }

  /** What one frame data unit does to a receiver that expects packets in frames of their own. */
  function ReceivePlain(c: Config, s: Rx, fdu: Fdu): (Rx, RxResult)
    requires WellFormed(c, fdu)
  {
    if fdu.pointer == ONLY_IDLE then (s, RxOid)
    else if fdu.pointer == 0 then StartPlain(c, s, fdu.data)
    else ContinuePlain(c, s, if fdu.pointer == NO_PACKET_START then fdu.data else fdu.data[..fdu.pointer])
  }

  /** With stuffing on or off. */
  function Take(c: Config, stuffing: bool, s: Rx, fdu: Fdu): (Rx, RxResult)
    requires WellFormed(c, fdu) && c.maxData > 0
  {
    if stuffing then Receive(c, s, fdu) else ReceivePlain(c, s, fdu)
  }
}
