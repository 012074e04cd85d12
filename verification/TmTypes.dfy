/** The vocabulary of TM multiplexing: frame data units, idle octets, and what both ends know of the
    packets they carry. */
module TmTypes {
  import opened Octets

  const IDLE: byte := 0xe0
  const NO_PACKET_START := 2047
  const ONLY_IDLE := 2046

  /** The mission parameters, and the user's hook that finds the length of a packet from its first
      `need` octets. */
  datatype Config = Config(maxData: nat, headerLen: nat, maxSdu: nat, need: nat, lengthOf: seq<byte> -> Option<nat>)

  /** First header pointers 2046 and 2047 are taken, and the hook reports no empty packets. */
  ghost predicate Sane(c: Config) {
    && 1 <= c.maxData < ONLY_IDLE
    && 1 <= c.need
    && forall s :: c.lengthOf(s) != Some(0)
  }

  /** The hook, given `mem` to look at. */
  function PacketLen(c: Config, mem: seq<byte>): Option<nat> {
    if |mem| < c.need then None else c.lengthOf(mem[..c.need])
  }

  /** The part of a transfer frame that multiplexing works on. */
  datatype Fdu = Fdu(pointer: nat, data: seq<byte>)

  predicate WellFormed(c: Config, fdu: Fdu) {
    |fdu.data| == c.maxData && (fdu.pointer < c.maxData || fdu.pointer == NO_PACKET_START || fdu.pointer == ONLY_IDLE)
  }

  function IdleOctets(n: nat): (s: seq<byte>)
    ensures |s| == n
    ensures forall i :: 0 <= i < n ==> s[i] == IDLE
  {
    seq(n, i => IDLE)
  }

  /** The length of the packet can be told from its beginning. */
  predicate Tells(c: Config, p: seq<byte>) {
    1 <= c.need <= |p| && c.lengthOf(p[..c.need]) == Some(|p|)
  }

  /** Nor can its beginning be taken for idle octets. */
  predicate Told(c: Config, p: seq<byte>) {
    Tells(c, p) && p[0] != IDLE
  }

  /** A packet both ends handle when packets are stuffed: longer than a frame header, and shorter than
      the largest unit. */
  predicate Packet(c: Config, p: seq<byte>) {
    Told(c, p) && c.headerLen < |p| < c.maxSdu
  }

  /** A packet both ends handle when every packet has frames of its own. */
  predicate PlainPacket(c: Config, p: seq<byte>) {
    Tells(c, p) && |p| <= c.maxSdu
  }

  /** The hook finds the length as soon as it sees enough of the packet. */
  lemma BeginningTellsLength(c: Config, p: seq<byte>, mem: seq<byte>)
    requires Tells(c, p) && (mem <= p || p <= mem)
    ensures PacketLen(c, mem) == if |mem| < c.need then None else Some(|p|)
  {
    if |mem| >= c.need {
      assert mem[..c.need] == p[..c.need];
    }
  }
}
