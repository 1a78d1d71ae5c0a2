/** The line activity the driver produces: the events of one byte exchange,
    of one attention-framed command session and of a run of sessions, together
    with the readings of a trace (the levels put on one line, the levels read
    from the data line) in which the protocol's promises are stated. */
module Protocol {
  import opened Bits
  import opened Gpio
  import opened Seqs

  /** One bit cell: put the bit on the command line, pull the clock low, read
      the data line (seeing d), release the clock. */
  function Cell(b: Bit, d: Bit): seq<Event>
  {
    [Drive(Cmd, b), Drive(Clk, 0), Sample(d), Drive(Clk, 1)]
  }

  /** The first n bit cells of sending c while the data line shows s. */
  function Cells(c: Byte, s: seq<Bit>, n: nat): (t: seq<Event>)
    requires n <= 8 && |s| == 8
    ensures |t| == 4 * n
  {
    if n == 0 then [] else Cells(c, s, n - 1) + Cell(BitAt(c, n - 1), s[n - 1])
  }

  /** The four events of a bit cell, appended one at a time. */
  lemma CellAppended(t: seq<Event>, b: Bit, d: Bit)
    ensures t + [Drive(Cmd, b)] + [Drive(Clk, 0)] + [Sample(d)] + [Drive(Clk, 1)] == t + Cell(b, d)
  {
  }

  /** The first n cells are the first n - 1 and then cell n - 1. */
  lemma CellsLast(c: Byte, s: seq<Bit>, n: nat)
    requires 0 < n <= 8 && |s| == 8
    ensures Cells(c, s, n) == Cells(c, s, n - 1) + Cell(BitAt(c, n - 1), s[n - 1])
  {
  }

  /** The events of exchanging byte c while the data line shows s: the command
      line is driven low, then come the eight bit cells. */
  function ByteTrace(c: Byte, s: seq<Bit>): (t: seq<Event>)
    requires |s| == 8
    ensures |t| == 33
  {
    [Drive(Cmd, 0)] + Cells(c, s, |s|)
  }

  /** The data-line levels seen while exchanging the k-th byte read from p. */
  function Block(p: Peer, k: nat): (s: seq<Bit>)
    ensures |s| == 8
  {
    p.Drop(8 * k).Samples(8)
  }

  /** The n bytes a peer p sends back, one per exchanged byte. */
  function Responses(p: Peer, n: nat): (r: seq<Byte>)
    ensures |r| == n
  {
    seq(n, k requires 0 <= k < n => FromBits(Block(p, k)))
  }

  /** The byte exchanges of a command frame, in frame order. */
  function Exchanges(cmds: seq<Byte>, p: Peer): (t: seq<Event>)
    ensures |t| == 33 * |cmds|
  {
    if cmds == [] then []
    else Exchanges(cmds[..|cmds| - 1], p) + ByteTrace(cmds[|cmds| - 1], Block(p, |cmds| - 1))
  }

  /** The exchanges of a frame are those of all but its last byte, then the
      last byte's exchange. */
  lemma ExchangesLast(cmds: seq<Byte>, p: Peer)
    requires cmds != []
    ensures Exchanges(cmds, p) ==
            Exchanges(cmds[..|cmds| - 1], p) + ByteTrace(cmds[|cmds| - 1], Block(p, |cmds| - 1))
  {
  }

  /** The exchanges of the first n bytes of a frame are those of the first
      n - 1, then the exchange of byte n - 1. */
  lemma ExchangesPrefix(cmds: seq<Byte>, p: Peer, n: nat)
    requires 0 < n <= |cmds|
    ensures Exchanges(cmds[..n], p) ==
            Exchanges(cmds[..n - 1], p) + ByteTrace(cmds[n - 1], Block(p, n - 1))
  {
    ExchangesLast(cmds[..n], p);
    PrefixOfPrefix(cmds, n - 1, n);
  }

  /** Extending the events of the first i cells of a byte exchange by the
      four events of cell i. */
  lemma CellStep(t0: seq<Event>, c: Byte, s: seq<Bit>, i: nat, t: seq<Event>)
    requires i < 8 && |s| == 8
    requires t == t0 + [Drive(Cmd, 0)] + Cells(c, s, i)
    ensures t + [Drive(Cmd, BitAt(c, i))] + [Drive(Clk, 0)] + [Sample(s[i])] + [Drive(Clk, 1)] ==
            t0 + [Drive(Cmd, 0)] + Cells(c, s, i + 1)
  {
    CellAppended(t, BitAt(c, i), s[i]);
    CellsLast(c, s, i + 1);
    AppendAssoc(t0 + [Drive(Cmd, 0)], Cells(c, s, i), Cell(BitAt(c, i), s[i]));
  }

  /** Extending the events of the first k exchanges of a frame by exchange k. */
  lemma ExchangeStep(t0: seq<Event>, cmds: seq<Byte>, p: Peer, k: nat, t: seq<Event>)
    requires k < |cmds|
    requires t == t0 + Exchanges(cmds[..k], p)
    ensures t + ByteTrace(cmds[k], Block(p, k)) == t0 + Exchanges(cmds[..k + 1], p)
  {
    ExchangesPrefix(cmds, p, k + 1);
    AppendAssoc(t0, Exchanges(cmds[..k], p), ByteTrace(cmds[k], Block(p, k)));
  }

  /** Releasing attention after the exchanges completes the session. */
  lemma SessionClosed(t0: seq<Event>, cmds: seq<Byte>, p: Peer)
    ensures t0 + [Drive(Cs, 0)] + Exchanges(cmds, p) + [Drive(Cs, 1)] == t0 + SessionTrace(cmds, p)
  {
    AppendAssoc(t0 + [Drive(Cs, 0)], Exchanges(cmds, p), [Drive(Cs, 1)]);
    AppendAssoc(t0, [Drive(Cs, 0)], Exchanges(cmds, p) + [Drive(Cs, 1)]);
  }

  /** One more byte exchanged is one more response. */
  lemma ResponsesSnoc(p: Peer, n: nat)
    ensures Responses(p, n + 1) == Responses(p, n) + [FromBits(Block(p, n))]
  {
  }

  /** Two peers that put the same levels on the data line for the first n
      bytes send back the same n bytes. */
  lemma ResponsesAgree(p: Peer, q: Peer, n: nat)
    requires forall k :: 0 <= k < 8 * n ==> p.Level(k) == q.Level(k)
    ensures Responses(p, n) == Responses(q, n)
  {
    forall k | 0 <= k < n
      ensures Block(p, k) == Block(q, k)
    {
      forall j | 0 <= j < 8
        ensures Block(p, k)[j] == Block(q, k)[j]
      {
        assert Block(p, k)[j] == p.Level(8 * k + j);
        assert Block(q, k)[j] == q.Level(8 * k + j);
      }
    }
  }

  /** One command session: attention asserted, the exchanges, attention released. */
  function SessionTrace(cmds: seq<Byte>, p: Peer): (t: seq<Event>)
    ensures |t| == 33 * |cmds| + 2
  {
    [Drive(Cs, 0)] + Exchanges(cmds, p) + [Drive(Cs, 1)]
  }

  /** Sessions for the frames fs, one after the other, each reading on where
      the previous one left the peer. */
  function Sessions(fs: seq<seq<Byte>>, p: Peer): seq<Event>
    decreases |fs|
  {
    if fs == [] then [] else SessionTrace(fs[0], p) + Sessions(fs[1..], p.Drop(8 * |fs[0]|))
  }

  /** A run of sessions starts with the session of its first frame. */
  lemma SessionsFirst(fs: seq<seq<Byte>>, p: Peer)
    requires fs != []
    ensures Sessions(fs, p) == SessionTrace(fs[0], p) + Sessions(fs[1..], p.Drop(8 * |fs[0]|))
  {
  }

  // ---- Readings of a trace ----

  /** The level an event drives on a line, if it drives that line. */
  function Driven(e: Event, line: Line): seq<Bit>
  {
    if e.Drive? && e.line == line then [e.level] else []
  }

  /** The level an event reads from the data line, if it is a read. */
  function Seen(e: Event): seq<Bit>
  {
    if e.Sample? then [e.level] else []
  }

  /** The levels driven on a line, in order. */
  function Levels(t: seq<Event>, line: Line): seq<Bit>
  {
    if t == [] then [] else Levels(t[..|t| - 1], line) + Driven(t[|t| - 1], line)
  }

  /** The levels read from the data line, in order. */
  function DataSamples(t: seq<Event>): seq<Bit>
  {
    if t == [] then [] else DataSamples(t[..|t| - 1]) + Seen(t[|t| - 1])
  }

  /** n clock pulses: low, high, low, high, ... */
  function Pulses(n: nat): seq<Bit>
  {
    if n == 0 then [] else Pulses(n - 1) + [0, 1]
  }

  lemma {:induction false} LevelsAppend(a: seq<Event>, b: seq<Event>, line: Line)
    ensures Levels(a + b, line) == Levels(a, line) + Levels(b, line)
    decreases |b|
  {
    if b == [] {
      assert a + b == a;
    } else {
      var b' := b[..|b| - 1];
      assert (a + b)[..|a + b| - 1] == a + b';
      LevelsAppend(a, b', line);
    }
  }

  lemma {:induction false} DataSamplesAppend(a: seq<Event>, b: seq<Event>)
    ensures DataSamples(a + b) == DataSamples(a) + DataSamples(b)
    decreases |b|
  {
    if b == [] {
      assert a + b == a;
    } else {
      var b' := b[..|b| - 1];
      assert (a + b)[..|a + b| - 1] == a + b';
      DataSamplesAppend(a, b');
    }
  }

  lemma SamplesSnoc(prev: seq<Event>, cell: seq<Event>, sp: seq<Bit>, d: Bit)
    requires DataSamples(prev) == sp && DataSamples(cell) == [d]
    ensures DataSamples(prev + cell) == sp + [d]
  {
    DataSamplesAppend(prev, cell);
  }

  /** What one event contributes to each reading. */
  lemma EventReadings(e: Event, line: Line)
    ensures Levels([e], line) == Driven(e, line)
    ensures DataSamples([e]) == Seen(e)
  {
    assert [e][..0] == [];
  }

  /** The readings of four events in a row. */
  lemma FourReadings(e0: Event, e1: Event, e2: Event, e3: Event, line: Line)
    ensures Levels([e0, e1, e2, e3], line) ==
            Driven(e0, line) + Driven(e1, line) + Driven(e2, line) + Driven(e3, line)
    ensures DataSamples([e0, e1, e2, e3]) == Seen(e0) + Seen(e1) + Seen(e2) + Seen(e3)
  {
    assert [e0, e1, e2, e3][..3] == [e0, e1, e2];
    assert [e0, e1, e2][..2] == [e0, e1];
    assert [e0, e1][..1] == [e0];
    assert [e0][..0] == [];
    assert Levels([e0], line) == Driven(e0, line);
    assert Levels([e0, e1], line) == Levels([e0], line) + Driven(e1, line);
    assert Levels([e0, e1, e2], line) == Levels([e0, e1], line) + Driven(e2, line);
    assert DataSamples([e0]) == Seen(e0);
    assert DataSamples([e0, e1]) == DataSamples([e0]) + Seen(e1);
    assert DataSamples([e0, e1, e2]) == DataSamples([e0, e1]) + Seen(e2);
  }

  lemma CellReadings(b: Bit, d: Bit)
    ensures Levels(Cell(b, d), Cmd) == [b]
    ensures Levels(Cell(b, d), Clk) == [0, 1]
    ensures Levels(Cell(b, d), Cs) == []
    ensures DataSamples(Cell(b, d)) == [d]
  {
    FourReadings(Drive(Cmd, b), Drive(Clk, 0), Sample(d), Drive(Clk, 1), Cmd);
    FourReadings(Drive(Cmd, b), Drive(Clk, 0), Sample(d), Drive(Clk, 1), Clk);
    FourReadings(Drive(Cmd, b), Drive(Clk, 0), Sample(d), Drive(Clk, 1), Cs);
  }

  /** The first n cells put the first n bits of c on the command line. */
  lemma {:induction false} CellsCmd(c: Byte, s: seq<Bit>, n: nat)
    requires n <= 8 && |s| == 8
    ensures Levels(Cells(c, s, n), Cmd) == BitsOf(c)[..n]
  {
    if n > 0 {
      var prev := Cells(c, s, n - 1);
      var cell := Cell(BitAt(c, n - 1), s[n - 1]);
      CellsLast(c, s, n);
      CellsCmd(c, s, n - 1);
      CellReadings(BitAt(c, n - 1), s[n - 1]);
      LevelsAppend(prev, cell, Cmd);
      PrefixSnoc(BitsOf(c), n);
    }
  }

  /** The first n cells give n clock pulses. */
  lemma {:induction false} CellsClk(c: Byte, s: seq<Bit>, n: nat)
    requires n <= 8 && |s| == 8
    ensures Levels(Cells(c, s, n), Clk) == Pulses(n)
  {
    if n > 0 {
      var prev := Cells(c, s, n - 1);
      var cell := Cell(BitAt(c, n - 1), s[n - 1]);
      CellsLast(c, s, n);
      CellsClk(c, s, n - 1);
      CellReadings(BitAt(c, n - 1), s[n - 1]);
      LevelsAppend(prev, cell, Clk);
    }
  }

  /** Bit cells never touch attention. */
  lemma {:induction false} CellsCs(c: Byte, s: seq<Bit>, n: nat)
    requires n <= 8 && |s| == 8
    ensures Levels(Cells(c, s, n), Cs) == []
  {
    if n > 0 {
      var prev := Cells(c, s, n - 1);
      var cell := Cell(BitAt(c, n - 1), s[n - 1]);
      CellsLast(c, s, n);
      CellsCs(c, s, n - 1);
      CellReadings(BitAt(c, n - 1), s[n - 1]);
      LevelsAppend(prev, cell, Cs);
    }
  }

  /** The first n cells read the first n levels of s. */
  lemma {:induction false} CellsSamples(c: Byte, s: seq<Bit>, n: nat)
    requires n <= 8 && |s| == 8
    ensures DataSamples(Cells(c, s, n)) == s[..n]
  {
    if n > 0 {
      var prev := Cells(c, s, n - 1);
      var cell := Cell(BitAt(c, n - 1), s[n - 1]);
      CellsLast(c, s, n);
      CellsSamples(c, s, n - 1);
      CellReadings(BitAt(c, n - 1), s[n - 1]);
      SamplesSnoc(prev, cell, s[..n - 1], s[n - 1]);
      PrefixSnoc(s, n);
    }
  }

  /** The leading cells of a byte exchange are the cells of a shorter exchange. */
  lemma {:induction false} CellsPrefix(c: Byte, s: seq<Bit>, i: nat, n: nat)
    requires i < n <= 8 && |s| == 8
    ensures Cells(c, s, n)[..4 * i] == Cells(c, s, i)
    ensures Cells(c, s, n)[4 * i..4 * i + 4] == Cell(BitAt(c, i), s[i])
  {
    if i < n - 1 {
      CellsPrefix(c, s, i, n - 1);
      assert Cells(c, s, n)[..4 * (n - 1)] == Cells(c, s, n - 1);
    }
  }

  /** Byte exchange, line behaviour: the command line is driven low first,
      exactly eight clock pulses follow, attention is never touched, the data
      line is read once per bit and the command line carries the bits of c,
      least significant first. */
  lemma ByteTraceReadings(c: Byte, s: seq<Bit>)
    requires |s| == 8
    ensures ByteTrace(c, s)[0] == Drive(Cmd, 0)
    ensures Levels(ByteTrace(c, s), Cmd) == [0] + BitsOf(c)
    ensures Levels(ByteTrace(c, s), Clk) == Pulses(8)
    ensures Levels(ByteTrace(c, s), Cs) == []
    ensures DataSamples(ByteTrace(c, s)) == s
  {
    var cells := Cells(c, s, |s|);
    assert ByteTrace(c, s) == [Drive(Cmd, 0)] + cells;
    CellsCmd(c, s, |s|);
    CellsClk(c, s, |s|);
    CellsCs(c, s, |s|);
    CellsSamples(c, s, |s|);
    EventReadings(Drive(Cmd, 0), Cmd);
    EventReadings(Drive(Cmd, 0), Clk);
    EventReadings(Drive(Cmd, 0), Cs);
    LevelsAppend([Drive(Cmd, 0)], cells, Cmd);
    LevelsAppend([Drive(Cmd, 0)], cells, Clk);
    LevelsAppend([Drive(Cmd, 0)], cells, Cs);
    DataSamplesAppend([Drive(Cmd, 0)], cells);
    PrefixAll(BitsOf(c));
    PrefixAll(s);
  }

  /** Positions in a trace that opens with one event ahead of its cells. */
  lemma HeadedSlice(e: Event, cells: seq<Event>, j: nat)
    requires j + 1 < |cells|
    ensures ([e] + cells)[..j + 2] == [e] + cells[..j] + [cells[j]]
    ensures ([e] + cells)[j + 2] == cells[j + 1]
  {
  }

  /** Bit cell i of an exchange, seen from its leading cells. */
  lemma CellAt(c: Byte, s: seq<Bit>, i: nat)
    requires |s| == 8 && i < 8
    ensures Cells(c, s, |s|)[..4 * i] == Cells(c, s, i)
    ensures Cells(c, s, |s|)[4 * i] == Drive(Cmd, BitAt(c, i))
    ensures Cells(c, s, |s|)[4 * i + 1] == Drive(Clk, 0)
  {
    var cells := Cells(c, s, |s|);
    CellsPrefix(c, s, i, |s|);
    assert cells[4 * i] == cells[4 * i..4 * i + 4][0];
    assert cells[4 * i + 1] == cells[4 * i..4 * i + 4][1];
  }

  /** The read of bit cell i of an exchange. */
  lemma SampleAt(c: Byte, s: seq<Bit>, i: nat)
    requires |s| == 8 && i < 8
    ensures Cells(c, s, |s|)[4 * i + 2] == Sample(s[i])
  {
    var cells := Cells(c, s, |s|);
    CellsPrefix(c, s, i, |s|);
    assert cells[4 * i + 2] == cells[4 * i..4 * i + 4][2];
  }

  /** The events of a byte exchange up to its i-th falling clock edge. */
  lemma ByteTraceUpToEdge(c: Byte, s: seq<Bit>, i: nat)
    requires |s| == 8 && i < 8
    ensures ByteTrace(c, s)[4 * i + 2] == Drive(Clk, 0)
    ensures ByteTrace(c, s)[..4 * i + 2] == [Drive(Cmd, 0)] + Cells(c, s, i) + [Drive(Cmd, BitAt(c, i))]
  {
    var cells := Cells(c, s, |s|);
    assert ByteTrace(c, s) == [Drive(Cmd, 0)] + cells;
    HeadedSlice(Drive(Cmd, 0), cells, 4 * i);
    CellAt(c, s, i);
  }

  /** The reading of a line of a trace with one event on either side of mid. */
  lemma LevelsFramed(e: Event, mid: seq<Event>, f: Event, line: Line, lv: seq<Bit>)
    requires Levels(mid, line) == lv
    ensures Levels([e] + mid + [f], line) == Driven(e, line) + lv + Driven(f, line)
  {
    LevelsAppend([e], mid, line);
    LevelsAppend([e] + mid, [f], line);
    EventReadings(e, line);
    EventReadings(f, line);
  }

  /** Byte exchange, clocking: the falling clock edge of bit cell i comes
      after exactly i earlier clock pulses. */
  lemma PulsesBeforeEdge(c: Byte, s: seq<Bit>, i: nat)
    requires |s| == 8 && i < 8
    ensures ByteTrace(c, s)[4 * i + 2] == Drive(Clk, 0)
    ensures Levels(ByteTrace(c, s)[..4 * i + 2], Clk) == Pulses(i)
  {
    ByteTraceUpToEdge(c, s, i);
    CellsClk(c, s, i);
    LevelsFramed(Drive(Cmd, 0), Cells(c, s, i), Drive(Cmd, BitAt(c, i)), Clk, Pulses(i));
  }

  /** Byte exchange, timing of the command line: at the falling clock edge of
      bit cell i the command line holds bit i of c, the last level driven on
      it before the edge (after the initial low and bits 0 to i - 1). */
  lemma CmdHeldAtFallingEdge(c: Byte, s: seq<Bit>, i: nat)
    requires |s| == 8 && i < 8
    ensures ByteTrace(c, s)[4 * i + 2] == Drive(Clk, 0)
    ensures Levels(ByteTrace(c, s)[..4 * i + 2], Cmd) == [0] + BitsOf(c)[..i + 1]
  {
    ByteTraceUpToEdge(c, s, i);
    CellsCmd(c, s, i);
    LevelsFramed(Drive(Cmd, 0), Cells(c, s, i), Drive(Cmd, BitAt(c, i)), Cmd, BitsOf(c)[..i]);
    PrefixSnoc(BitsOf(c), i + 1);
  }

  /** Byte exchange, sampling: the i-th read of the data line comes right
      after the i-th falling clock edge, while the command line still holds
      bit i of c. */
  lemma CmdHeldAtSample(c: Byte, s: seq<Bit>, i: nat)
    requires |s| == 8 && i < 8
    ensures ByteTrace(c, s)[4 * i + 3] == Sample(s[i])
    ensures Levels(ByteTrace(c, s)[..4 * i + 3], Cmd) == [0] + BitsOf(c)[..i + 1]
  {
    var t := ByteTrace(c, s);
    var cells := Cells(c, s, |s|);
    assert t == [Drive(Cmd, 0)] + cells;
    SampleAt(c, s, i);
    assert t[4 * i + 3] == cells[4 * i + 2];
    CmdHeldAtFallingEdge(c, s, i);
    PrefixSnoc(t, 4 * i + 3);
    LevelsAppend(t[..4 * i + 2], [t[4 * i + 2]], Cmd);
    EventReadings(Drive(Clk, 0), Cmd);
    AppendEmpty([0] + BitsOf(c)[..i + 1]);
  }

  /** A trace in which every read of the data line sees the level last driven
      on the command line: the peer echoes the command line. */
  predicate Echoes(t: seq<Event>)
  {
    forall j :: 0 <= j < |t| && t[j].Sample? ==>
      var driven := Levels(t[..j], Cmd);
      driven != [] && t[j].level == driven[|driven| - 1]
  }

  /** The exchanges of a frame never touch attention. */
  lemma {:induction false} ExchangesKeepAttention(cmds: seq<Byte>, p: Peer)
    ensures Levels(Exchanges(cmds, p), Cs) == []
    decreases |cmds|
  {
    if cmds != [] {
      var n := |cmds| - 1;
      var prev := Exchanges(cmds[..n], p);
      var last := ByteTrace(cmds[n], Block(p, n));
      ExchangesLast(cmds, p);
      ExchangesKeepAttention(cmds[..n], p);
      ByteTraceReadings(cmds[n], Block(p, n));
      LevelsAppend(prev, last, Cs);
    }
  }

  /** Slices of a concatenation that fall within one of its parts. */
  lemma SliceOfAppend(a: seq<Event>, b: seq<Event>, i: nat, j: nat)
    requires i <= j <= |a| + |b|
    ensures j <= |a| ==> (a + b)[i..j] == a[i..j]
    ensures i == |a| && j == |a| + |b| ==> (a + b)[i..j] == b
  {
  }

  /** The k-th block of 33 events of prev + last. */
  lemma BlockOfAppend(prev: seq<Event>, last: seq<Event>, k: nat, x: seq<Event>)
    requires |last| == 33 && |prev| % 33 == 0 && 33 * k < |prev| + 33
    requires 33 * k < |prev| ==> prev[33 * k..33 * k + 33] == x
    requires 33 * k == |prev| ==> last == x
    ensures (prev + last)[33 * k..33 * k + 33] == x
  {
    SliceOfAppend(prev, last, 33 * k, 33 * k + 33);
  }

  /** Command session, byte order: the k-th block of 33 events of a frame's
      exchanges is the exchange of the frame's k-th byte against the k-th
      eight levels of the peer. */
  lemma {:induction false} ExchangeOfByte(cmds: seq<Byte>, p: Peer, k: nat)
    requires k < |cmds|
    ensures Exchanges(cmds, p)[33 * k..33 * k + 33] == ByteTrace(cmds[k], Block(p, k))
    decreases |cmds|
  {
    var n := |cmds| - 1;
    var prev := Exchanges(cmds[..n], p);
    var last := ByteTrace(cmds[n], Block(p, n));
    ExchangesLast(cmds, p);
    if k < n {
      ExchangeOfByte(cmds[..n], p, k);
      assert cmds[..n][k] == cmds[k];
    }
    BlockOfAppend(prev, last, k, ByteTrace(cmds[k], Block(p, k)));
  }

  /** Command session, attention framing: attention is driven low as the first
      event and high as the last, and at no other time. */
  lemma SessionFraming(cmds: seq<Byte>, p: Peer)
    ensures SessionTrace(cmds, p)[0] == Drive(Cs, 0)
    ensures SessionTrace(cmds, p)[33 * |cmds| + 1] == Drive(Cs, 1)
    ensures Levels(SessionTrace(cmds, p), Cs) == [0, 1]
  {
    var ex := Exchanges(cmds, p);
    ExchangesKeepAttention(cmds, p);
    EventReadings(Drive(Cs, 0), Cs);
    EventReadings(Drive(Cs, 1), Cs);
    LevelsAppend([Drive(Cs, 0)], ex, Cs);
    LevelsAppend([Drive(Cs, 0)] + ex, [Drive(Cs, 1)], Cs);
  }
}
