/** Octets, 8-bit counters and the small sequence vocabulary the other modules share. */
module Octets {

  type byte = bv8

  /** The value of an 8-bit protocol counter (V(S), V(R), NN(R), N(S), N(R)). */
  type Counter = x: int | 0 <= x < 256

  datatype Option<+T> = None | Some(value: T)

  /** The big-endian value of two octets. */
  function Word(hi: byte, lo: byte): bv16 {
    ((hi as bv16) << 8) | (lo as bv16)
  }

  function High(w: bv16): byte {
    ((w >> 8) & 0xff) as byte
  }

  function Low(w: bv16): byte {
    (w & 0xff) as byte
  }

  lemma WordOfHalves(w: bv16)
    ensures Word(High(w), Low(w)) == w
  {
  }

  lemma HalvesOfWord(hi: byte, lo: byte)
    ensures High(Word(hi, lo)) == hi && Low(Word(hi, lo)) == lo
  {
  }

  function Min(a: nat, b: nat): nat {
    if a < b then a else b
  }

  /** The low octet of a number. */
  function LowOctet(n: nat): byte {
    (n % 256) as byte
  }

  /** Copies octets into a buffer. */
  method CopyTo(out: array<byte>, at: nat, data: seq<byte>)
    requires at + |data| <= out.Length
    modifies out
    ensures out[..at + |data|] == old(out[..at]) + data
    ensures out[at + |data|..] == old(out[at + |data|..])
  {
    forall i | 0 <= i < |data| {
      out[at + i] := data[i];
    }
  }

  /** The octet of a given value, reached by counting. */
  ghost function OctetOf(n: nat): (b: byte)
    requires n < 256
    ensures b as int == n
  {
    if n == 0 then 0 else
      var p := OctetOf(n - 1);
      Increment(p);
      p + 1
  }

  lemma Increment(b: byte)
    requires (b as int) < 255
    ensures (b + 1) as int == (b as int) + 1
  {
    assert b < 255;
  }

  /** Conversion to an octet keeps the value. */
  lemma OctetValue(n: nat)
    requires n < 256
    ensures (n as bv8) as int == n
  {
    var b := OctetOf(n);
    assert (b as int) as bv8 == b;
  }

  /** Concatenation of a list of octet strings. */
  function Flatten<T>(parts: seq<seq<T>>): seq<T> {
    if parts == [] then [] else parts[0] + Flatten(parts[1..])
  }

  lemma {:induction false} FlattenAppend<T>(a: seq<seq<T>>, b: seq<seq<T>>)
    ensures Flatten(a + b) == Flatten(a) + Flatten(b)
  {
    if a == [] {
      assert a + b == b;
    } else {
      FlattenAppend(a[1..], b);
      assert (a + b)[1..] == a[1..] + b;
      assert a[0] + (Flatten(a[1..]) + Flatten(b)) == a[0] + Flatten(a[1..]) + Flatten(b);
    }
  }
}
