/** The four-wire bus seen from the driver: three output lines (command,
    clock, attention), one input line (data) driven by the peer, and a record
    of every line event in the order it happened. */
module Gpio {
  import opened Bits

  /** The output lines the driver sets. */
  datatype Line = Cmd | Clk | Cs

  /** One event on the bus: the driver sets an output line to a level, or
      reads the data line and sees a level. */
  datatype Event = Drive(line: Line, level: Bit) | Sample(level: Bit)

  /** What the peer puts on the data line: one level per read, in order, and
      the level the line rests at once the peer has nothing more to send;
      `at` counts the reads already made. */
  datatype Peer = Peer(bits: seq<Bit>, idle: Bit, at: nat) {

    /** The level the k-th read from now sees. */
    function Level(k: nat): Bit
    {
      if at + k < |bits| then bits[at + k] else idle
    }

    /** The peer after n more reads. */
    function Drop(n: nat): (p: Peer)
      ensures forall k: nat :: p.Level(k) == Level(n + k)
    {
      Peer(bits, idle, at + n)
    }

    /** The levels the next n reads see. */
    function Samples(n: nat): (s: seq<Bit>)
      ensures |s| == n
      ensures forall k :: 0 <= k < n ==> s[k] == Level(k)
    {
      seq(n, k requires 0 <= k < n => Level(k))
    }
  }

  /** Reading a peer a reads and then b reads is reading it a + b reads. */
  lemma DropDrop(p: Peer, a: nat, b: nat)
    ensures p.Drop(a).Drop(b) == p.Drop(a + b)
  {
  }

  /** The GPIO lines of one controller port. */
  class Bus {
    var cmd: Bit
    var clk: Bit
    var cs: Bit
    /** What the peer will put on the data line. */
    var peer: Peer
    /** Every event on the bus so far, oldest first. */
    ghost var trace: seq<Event>

    constructor (cmd0: Bit, clk0: Bit, cs0: Bit, peer0: Peer)
      ensures cmd == cmd0 && clk == clk0 && cs == cs0
      ensures peer == peer0 && trace == []
    {
      cmd, clk, cs := cmd0, clk0, cs0;
      peer := peer0;
      trace := [];
    }

    /** Sets one output line; the other lines and the peer are unchanged. */
    method SetLevel(line: Line, level: Bit)
      modifies this
      ensures cmd == (if line == Cmd then level else old(cmd))
      ensures clk == (if line == Clk then level else old(clk))
      ensures cs == (if line == Cs then level else old(cs))
      ensures peer == old(peer)
      ensures trace == old(trace) + [Drive(line, level)]
    {
      match line {
        case Cmd => cmd := level;
        case Clk => clk := level;
        case Cs => cs := level;
      }
      trace := trace + [Drive(line, level)];
    }

    /** Reads the data line, consuming one level of the peer. */
    method ReadData() returns (level: Bit)
      modifies this
      ensures level == old(peer).Level(0)
      ensures peer == old(peer).Drop(1)
      ensures cmd == old(cmd) && clk == old(clk) && cs == old(cs)
      ensures trace == old(trace) + [Sample(level)]
    {
      level := peer.Level(0);
      peer := peer.Drop(1);
      trace := trace + [Sample(level)];
    }
  }
}
