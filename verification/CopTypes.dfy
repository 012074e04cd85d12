/** The vocabulary shared by the two ends of COP-1. A Frame is the content of one packed TC
    transfer frame; TcFrame.dfy proves that packing and unpacking the octets preserves it. */
module CopTypes {
  import opened Octets

  datatype SeqFlag = Cont | First | Last | Unseg

  datatype SegHeader = SegHeader(flag: SeqFlag, mapId: bv8)

  /** The header fields a user prepares before handing data over. */
  datatype Header = Header(typeB: bool, command: bool, seg: SegHeader)

  datatype Frame = Frame(hdr: Header, ns: Counter, data: seq<byte>)

  /** What FARM-1 hands on of an accepted frame: its segment header and its data. */
  datatype Segment = Segment(seg: SegHeader, data: seq<byte>)

  function Payload(frame: Frame): Segment {
    Segment(frame.hdr.seg, frame.data)
  }

  /** The fields of a CLCW that FOP-1 reads. */
  datatype Clcw = Clcw(lockout: bool, wait: bool, retransmit: bool, nr: Counter)

  const SETVR_BYTE1: byte := 0x82
  const SETVR_BYTE2: byte := 0
  const UNLOCK_CMD: byte := 0

  /** How far `x` is ahead of `from` on the circle of 256 counter values. */
  function Distance(x: Counter, from: Counter): Counter {
    (x - from) % 256
  }

  function Next(x: Counter): Counter {
    (x + 1) % 256
  }
}
