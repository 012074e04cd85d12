/** The sender of src/osdlp_tm.c as it is programmed; it is proved to do what TmMux.dfy says. */
module TmSender {
  import opened Octets
  import opened TmTypes
  import M = TmMux

  /** A frame count `n` frames later. */
  function Later(count: Counter, n: nat): Counter {
    (count + n) % 256
  }

  lemma LaterByOne(count: Counter, n: nat)
    ensures Later(Later(count, n), 1) == Later(count, n + 1) && Later(count, 0) == count
  {
  }

  /** The counts go up by one from frame to frame and begin again after 255: two frames have the same count
      exactly if a multiple of 256 frames lies between them. */
  lemma CountsTellFramesApart(count: Counter, m: nat, n: nat)
    ensures Later(count, m) == Later(count, n) <==> (m - n) % 256 == 0
    ensures Later(count, n + 1) == if Later(count, n) == 255 then 0 else Later(count, n) + 1
  {
    SameRemainder(count + m, count + n);
  }

  lemma SameRemainder(a: nat, b: nat)
    ensures a % 256 == b % 256 <==> (a - b) % 256 == 0
  {
    var k, l := a / 256, b / 256;
    assert a - b == 256 * (k - l) + (a % 256 - b % 256);
  }

  class Sender {
    const c: Config
    const stuffing: bool
    const cap: nat
    var q: seq<Fdu>
    var loopOpen: bool
    var bufferedLength: nat
    var mcFrameCnt: Counter
    var vcFrameCnt: Counter

    ghost function State(): M.Tx
      reads this
    {
      M.Tx(q, cap, loopOpen, bufferedLength)
    }

    constructor (c: Config, stuffing: bool, cap: nat, mc: Counter)
      ensures this.c == c && this.stuffing == stuffing && State() == M.Tx([], cap, false, 0)
      ensures mcFrameCnt == mc && vcFrameCnt == 0
    {
      this.c, this.stuffing, this.cap := c, stuffing, cap;
      q, loopOpen, bufferedLength := [], false, 0;
      mcFrameCnt, vcFrameCnt := mc, 0;
    }

    /** `eval_residue_len` */
    method EvalResidueLen(last: Fdu) returns (residueLen: nat)
      requires Sane(c) && WellFormed(c, last)
      ensures residueLen == M.Residue(c, last)
    {
      residueLen := 0;
      if last.pointer != NO_PACKET_START && last.pointer != ONLY_IDLE {
        if last.data[last.pointer] == IDLE {
          return last.pointer;
        }
        residueLen := last.pointer;
        while residueLen <= c.maxData
          invariant residueLen < c.maxData
          invariant M.PacketsEnd(c, last.data, last.pointer) == M.PacketsEnd(c, last.data, residueLen)
          decreases c.maxData - residueLen
        {
          var len := PacketLen(c, last.data[residueLen..]);
          if len.None? {
            return 0;
          }
          if len.value + c.headerLen + residueLen >= c.maxData {
            return residueLen + len.value;
          }
          assert len.value != 0;
          residueLen := residueLen + len.value;
          if last.data[residueLen] == IDLE {
            return residueLen;
          }
        }
      } else if last.pointer == NO_PACKET_START {
        residueLen := c.maxData;
      }
    }

    /** `handle_pkt_stuffing`: copies the packet, or as much of it as fits, into the last frame. */
    method HandlePktStuffing(numPackets: nat, p: seq<byte>, residueLen: nat) returns (remainingLen: nat)
      requires q != [] && WellFormed(c, q[|q| - 1]) && residueLen < c.maxData
      requires numPackets == 1 <==> |p| + residueLen <= c.maxData
      modifies this`q
      ensures q == old(q)[|old(q)| - 1 := M.Stuffed(c, old(q)[|old(q)| - 1], residueLen, p)]
      ensures remainingLen == if numPackets == 1 then 0 else |p| - (c.maxData - residueLen)
    {
      var last := q[|q| - 1];
      if numPackets == 1 {
        var leftover := c.maxData - |p| - residueLen;
        assert p[..|p|] == p;
        q := q[|q| - 1 := last.(data := last.data[..residueLen] + p + IdleOctets(leftover))];
        remainingLen := 0;
      } else {
        var chunk := c.maxData - residueLen;
        remainingLen := |p| - chunk;
        assert IdleOctets(0) == [];
        assert last.data[..residueLen] + p[..chunk] + [] == last.data[..residueLen] + p[..chunk];
        q := q[|q| - 1 := last.(data := last.data[..residueLen] + p[..chunk])];
      }
    }

    method Count()
      modifies this`mcFrameCnt, this`vcFrameCnt
      ensures mcFrameCnt == Later(old(mcFrameCnt), 1) && vcFrameCnt == Later(old(vcFrameCnt), 1)
    {
      mcFrameCnt := if mcFrameCnt < 255 then mcFrameCnt + 1 else 0;
      vcFrameCnt := if vcFrameCnt < 255 then vcFrameCnt + 1 else 0;
    }

    /** The frame with its first header pointer. */
    method NextFrame(p: seq<byte>, remainingLen: nat) returns (fdu: Fdu, bytesAvail: nat)
      requires remainingLen <= |p|
      ensures fdu == M.NextFdu(c, p, remainingLen) && bytesAvail == Min(c.maxData, remainingLen)
    {
      var pointer;
      if |p| == remainingLen {
        pointer := 0;
      } else if remainingLen >= c.maxData {
        pointer := NO_PACKET_START;
      } else {
        pointer := remainingLen;
      }
      bytesAvail := if c.maxData >= remainingLen then remainingLen else c.maxData;
      var from := |p| - remainingLen;
      fdu := Fdu(pointer, p[from..from + bytesAvail] + IdleOctets(c.maxData - bytesAvail));
    }

    /** The loop of `osdlp_tm_transmit`: what is left of the packet goes into new frames. Frame numbers
        are used up by refused frames too. */
    method FillFrames(p: seq<byte>, remaining: nat, frames: nat) returns (ok: bool)
      requires remaining <= |p|
      modifies this
      ensures (State(), ok) == M.Emit(c, old(State()), p, remaining, frames)
      ensures |q| >= |old(q)|
      ensures var numbers := |q| - |old(q)| + if ok then 0 else 1;
              vcFrameCnt == Later(old(vcFrameCnt), numbers) && mcFrameCnt == Later(old(mcFrameCnt), numbers)
    {
      hide M.NextFdu, Later;
      var remainingLen: nat, numPackets: nat := remaining, frames;
      LaterByOne(mcFrameCnt, 0);
      LaterByOne(vcFrameCnt, 0);
      while numPackets > 0
        invariant remainingLen <= |p|
        invariant M.Emit(c, old(State()), p, remaining, frames) == M.Emit(c, State(), p, remainingLen, numPackets)
        invariant |q| >= |old(q)|
        invariant vcFrameCnt == Later(old(vcFrameCnt), |q| - |old(q)|)
        invariant mcFrameCnt == Later(old(mcFrameCnt), |q| - |old(q)|)
        decreases numPackets
      {
        LaterByOne(old(mcFrameCnt), |q| - |old(q)|);
        LaterByOne(old(vcFrameCnt), |q| - |old(q)|);
        Count();
        var fdu, bytesAvail := NextFrame(p, remainingLen);
        if |q| >= cap {
          loopOpen := true;
          bufferedLength := |p| - remainingLen;
          return false;
        }
        numPackets := numPackets - 1;
        q := q + [fdu];
        remainingLen := remainingLen - bytesAvail;
      }
      loopOpen := false;
      bufferedLength := 0;
      ok := true;
    }

    /** `osdlp_tm_transmit`. A refused packet is given again, whole. */
    method Transmit(p: seq<byte>, visible: bool) returns (ok: bool)
      requires Sane(c) && M.TxOk(c, State()) && bufferedLength <= |p|
      modifies this
      ensures (State(), ok) == if stuffing then M.Transmit(c, old(State()), visible, p)
          else M.TransmitPlain(c, old(State()), p)
      ensures |q| >= |old(q)| && vcFrameCnt == Later(old(vcFrameCnt), |q| - |old(q)| + if ok then 0 else 1)
    {
      hide M.Residue, M.Stuffed, M.FramesFor, M.Emit;
      var remainingLen: nat := if loopOpen then |p| - bufferedLength else |p|;
      var numPackets: nat;
      if q != [] && stuffing && !loopOpen {
        var residueLen := c.maxData;
        assert WellFormed(c, q[|q| - 1]);
        if visible {
          residueLen := EvalResidueLen(q[|q| - 1]);
        }
        if residueLen >= c.maxData {
          numPackets := M.FramesFor(remainingLen, c.maxData);
        } else {
          numPackets := M.FramesFor(remainingLen + residueLen, c.maxData);
          M.OneFrame(remainingLen + residueLen, c.maxData);
          remainingLen := HandlePktStuffing(numPackets, p, residueLen);
          numPackets := numPackets - 1;
        }
      } else {
        numPackets := M.FramesFor(remainingLen, c.maxData);
      }
      ok := FillFrames(p, remainingLen, numPackets);
    }
  }
}
