/** A bus analyser: a state machine that watches the line events and
    reconstructs the frames exchanged. While attention is low it takes the
    command level at every falling clock edge and the data level at every read,
    closes a byte after eight data reads, and closes the frame when attention
    goes high again. It is an independent reading of a trace: the lemmas here
    show that it sees in the driver's traces exactly the frames the driver was
    asked to send, paired with the bytes the peer sent back. */
module Sniffer {
  import opened Bits
  import opened Gpio
  import opened Protocol
  import opened Seqs

  /** One byte exchanged: sent on the command line, received on the data line. */
  datatype Transfer = Transfer(sent: Byte, received: Byte)

  datatype Monitor = Monitor(
    cs: Bit,                        // attention level
    cmd: Bit,                       // command level
    out: seq<Bit>,                  // command bits of the byte in progress
    inb: seq<Bit>,                  // data bits of the byte in progress
    frame: seq<Transfer>,           // bytes of the frame in progress
    frames: seq<seq<Transfer>>)     // completed frames, oldest first

  /** The analyser before it has seen anything: attention released. */
  const Idle: Monitor := Monitor(1, 0, [], [], [], [])

  function Step(m: Monitor, e: Event): Monitor
  {
    match e
    case Drive(Cs, v) =>
      if v == 0 then m.(cs := 0, out := [], inb := [], frame := [])
      else if m.cs == 0 then m.(cs := 1, frames := m.frames + [m.frame])
      else m
    case Drive(Cmd, v) => m.(cmd := v)
    case Drive(Clk, v) => if v == 0 && m.cs == 0 then m.(out := m.out + [m.cmd]) else m
    case Sample(v) =>
      if m.cs != 0 then m
      else if |m.inb| == 7 && |m.out| == 8 then
        m.(out := [], inb := [], frame := m.frame + [Transfer(FromBits(m.out), FromBits(m.inb + [v]))])
      else m.(inb := m.inb + [v])
  }

  /** The analyser after watching t. */
  function Run(m: Monitor, t: seq<Event>): Monitor
  {
    if t == [] then m else Step(Run(m, t[..|t| - 1]), t[|t| - 1])
  }

  /** The frames seen on a bus that starts idle. */
  function Observe(t: seq<Event>): seq<seq<Transfer>>
  {
    Run(Idle, t).frames
  }

  /** The bytes sent in a frame, and the frame pairing a command frame with
      its response frame. */
  function Sent(frame: seq<Transfer>): (r: seq<Byte>)
    ensures |r| == |frame|
  {
    seq(|frame|, i requires 0 <= i < |frame| => frame[i].sent)
  }

  function SentFrames(frames: seq<seq<Transfer>>): (r: seq<seq<Byte>>)
    ensures |r| == |frames|
  {
    seq(|frames|, i requires 0 <= i < |frames| => Sent(frames[i]))
  }

  function Zip(cmds: seq<Byte>, resp: seq<Byte>): (r: seq<Transfer>)
    requires |cmds| == |resp|
    ensures |r| == |cmds|
  {
    seq(|cmds|, i requires 0 <= i < |cmds| => Transfer(cmds[i], resp[i]))
  }

  lemma {:induction false} RunAppend(m: Monitor, a: seq<Event>, b: seq<Event>)
    ensures Run(m, a + b) == Run(Run(m, a), b)
    decreases |b|
  {
    if b == [] {
      assert a + b == a;
    } else {
      var b' := b[..|b| - 1];
      assert (a + b)[..|a + b| - 1] == a + b';
      RunAppend(m, a, b');
    }
  }

  lemma RunOne(m: Monitor, e: Event)
    ensures Run(m, [e]) == Step(m, e)
  {
    assert [e][..0] == [];
  }

  /** One bit cell inside a frame adds one command bit and one data bit, and
      the eighth closes the byte. */
  lemma RunCell(m: Monitor, b: Bit, d: Bit)
    requires m.cs == 0 && |m.out| == |m.inb| < 8
    ensures var r := Run(m, Cell(b, d));
            r.cs == 0 && r.frames == m.frames &&
            if |m.inb| < 7 then r.out == m.out + [b] && r.inb == m.inb + [d] && r.frame == m.frame
            else r.out == [] && r.inb == [] &&
                 r.frame == m.frame + [Transfer(FromBits(m.out + [b]), FromBits(m.inb + [d]))]
  {
    var t := Cell(b, d);
    assert t == [t[0]] + [t[1]] + [t[2]] + [t[3]];
    RunAppend(m, [t[0]] + [t[1]] + [t[2]], [t[3]]);
    RunAppend(m, [t[0]] + [t[1]], [t[2]]);
    RunAppend(m, [t[0]], [t[1]]);
    var m1 := Run(m, [t[0]]);
    var m2 := Run(m1, [t[1]]);
    var m3 := Run(m2, [t[2]]);
    RunOne(m, t[0]);
    RunOne(m1, t[1]);
    RunOne(m2, t[2]);
    RunOne(m3, t[3]);
  }

  /** The first n < 8 cells of a byte leave its first n bits pending. */
  lemma {:induction false} RunCells(m: Monitor, c: Byte, s: seq<Bit>, n: nat)
    requires m.cs == 0 && m.out == [] && m.inb == []
    requires |s| == 8 && n < 8
    ensures var r := Run(m, Cells(c, s, n));
            r.cs == 0 && r.out == BitsOf(c)[..n] && r.inb == s[..n] &&
            r.frame == m.frame && r.frames == m.frames
  {
    if n > 0 {
      var prev := Cells(c, s, n - 1);
      var cell := Cell(BitAt(c, n - 1), s[n - 1]);
      assert Cells(c, s, n) == prev + cell;
      RunCells(m, c, s, n - 1);
      var m1 := Run(m, prev);
      RunCell(m1, BitAt(c, n - 1), s[n - 1]);
      RunAppend(m, prev, cell);
      PrefixSnoc(BitsOf(c), n);
      PrefixSnoc(s, n);
    }
  }

  /** A whole byte exchange inside a frame adds one transfer: c sent, the byte
      read LSB-first from s received. */
  lemma RunByte(m: Monitor, c: Byte, s: seq<Bit>)
    requires m.cs == 0 && m.out == [] && m.inb == []
    requires |s| == 8
    ensures var r := Run(m, ByteTrace(c, s));
            r.cs == 0 && r.out == [] && r.inb == [] &&
            r.frame == m.frame + [Transfer(c, FromBits(s))] && r.frames == m.frames
  {
    var first := [Drive(Cmd, 0)];
    var seven := Cells(c, s, 7);
    var cell := Cell(BitAt(c, 7), s[7]);
    CellsLast(c, s, |s|);
    assert ByteTrace(c, s) == first + seven + cell;
    RunAppend(m, first + seven, cell);
    RunAppend(m, first, seven);
    RunOne(m, Drive(Cmd, 0));
    var m1 := Run(m, first);
    RunCells(m1, c, s, 7);
    RunCell(Run(m1, seven), BitAt(c, 7), s[7]);
    PrefixLast(BitsOf(c));
    PrefixLast(s);
    FromBitsOf(c);
  }

  /** The exchanges of a frame add one transfer per byte, in order. */
  lemma {:induction false} RunExchanges(m: Monitor, cmds: seq<Byte>, p: Peer)
    requires m.cs == 0 && m.out == [] && m.inb == []
    ensures var r := Run(m, Exchanges(cmds, p));
            r.cs == 0 && r.out == [] && r.inb == [] &&
            r.frame == m.frame + Zip(cmds, Responses(p, |cmds|)) && r.frames == m.frames
    decreases |cmds|
  {
    if cmds == [] {
      assert m.frame + Zip(cmds, Responses(p, |cmds|)) == m.frame;
    } else {
      var n := |cmds| - 1;
      var prev := Exchanges(cmds[..n], p);
      var last := ByteTrace(cmds[n], Block(p, n));
      ExchangesLast(cmds, p);
      RunExchanges(m, cmds[..n], p);
      RunByte(Run(m, prev), cmds[n], Block(p, n));
      RunAppend(m, prev, last);
      ZipSnoc(cmds, p);
      AppendSnoc(m.frame, Zip(cmds[..n], Responses(p, n)), Transfer(cmds[n], FromBits(Block(p, n))),
                 Zip(cmds, Responses(p, |cmds|)));
    }
  }

  /** Pairing one more byte of a frame with one more response. */
  lemma ZipSnoc(cmds: seq<Byte>, p: Peer)
    requires cmds != []
    ensures Zip(cmds, Responses(p, |cmds|)) ==
            Zip(cmds[..|cmds| - 1], Responses(p, |cmds| - 1)) +
            [Transfer(cmds[|cmds| - 1], FromBits(Block(p, |cmds| - 1)))]
  {
  }

  /** A command session, watched from any state, adds exactly one frame: the
      command bytes paired with the responses, in order; attention ends high. */
  lemma RunSession(m: Monitor, cmds: seq<Byte>, p: Peer)
    ensures Run(m, SessionTrace(cmds, p)).frames == m.frames + [Zip(cmds, Responses(p, |cmds|))]
    ensures Run(m, SessionTrace(cmds, p)).cs == 1
  {
    var open, close := [Drive(Cs, 0)], [Drive(Cs, 1)];
    var ex := Exchanges(cmds, p);
    assert SessionTrace(cmds, p) == open + ex + close;
    RunAppend(m, open + ex, close);
    RunAppend(m, open, ex);
    RunOne(m, Drive(Cs, 0));
    var m1 := Run(m, open);
    assert m1 == m.(cs := 0, out := [], inb := [], frame := []);
    RunExchanges(m1, cmds, p);
    var m2 := Run(m1, ex);
    RunOne(m2, Drive(Cs, 1));
    EmptyAppend(Zip(cmds, Responses(p, |cmds|)));
  }

  /** Sent bytes of a frame built by pairing. */
  lemma SentZip(cmds: seq<Byte>, resp: seq<Byte>)
    requires |cmds| == |resp|
    ensures Sent(Zip(cmds, resp)) == cmds
  {
  }

  /** A run of sessions adds one frame per session, carrying that session's
      command bytes, in order. */
  lemma {:induction false} RunSessions(m: Monitor, fs: seq<seq<Byte>>, p: Peer)
    ensures SentFrames(Run(m, Sessions(fs, p)).frames) == SentFrames(m.frames) + fs
    decreases |fs|
  {
    if fs == [] {
      assert SentFrames(m.frames) + fs == SentFrames(m.frames);
    } else {
      var q := p.Drop(8 * |fs[0]|);
      var first := SessionTrace(fs[0], p);
      var f := Zip(fs[0], Responses(p, |fs[0]|));
      SessionsFirst(fs, p);
      RunAppend(m, first, Sessions(fs[1..], q));
      RunSession(m, fs[0], p);
      SentFramesSnoc(m.frames, f);
      SentZip(fs[0], Responses(p, |fs[0]|));
      RunSessions(Run(m, first), fs[1..], q);
      AppendCons(SentFrames(m.frames), fs);
    }
  }

  lemma SentFramesSnoc(frames: seq<seq<Transfer>>, f: seq<Transfer>)
    ensures SentFrames(frames + [f]) == SentFrames(frames) + [Sent(f)]
  {
  }

  /** Command session, as an analyser on the bus sees it: one frame in which
      the i-th transfer pairs the i-th command byte with the i-th response byte. */
  lemma SessionObserved(cmds: seq<Byte>, p: Peer)
    ensures Observe(SessionTrace(cmds, p)) == [Zip(cmds, Responses(p, |cmds|))]
  {
    RunSession(Idle, cmds, p);
  }

  /** Sessions, as an analyser on the bus sees them: one frame per session,
      carrying exactly that session's command bytes, in order. */
  lemma SessionsObserved(fs: seq<seq<Byte>>, p: Peer)
    ensures SentFrames(Observe(Sessions(fs, p))) == fs
  {
    RunSessions(Idle, fs, p);
    assert SentFrames(Idle.frames) == [];
  }

  /** A command session after any trace adds exactly one frame to what the
      analyser saw. */
  lemma ObservedThen(t: seq<Event>, cmds: seq<Byte>, q: Peer)
    ensures Observe(t + SessionTrace(cmds, q)) == Observe(t) + [Zip(cmds, Responses(q, |cmds|))]
  {
    RunAppend(Idle, t, SessionTrace(cmds, q));
    RunSession(Run(Idle, t), cmds, q);
  }

  /** Sessions for the frames fs followed by one more command session: the
      analyser sees the frames fs, then the command bytes of the last session
      paired with its responses. */
  lemma SessionsThenObserved(fs: seq<seq<Byte>>, p: Peer, cmds: seq<Byte>, q: Peer)
    ensures var frames := Observe(Sessions(fs, p) + SessionTrace(cmds, q));
            SentFrames(frames) == fs + [cmds] &&
            |frames| == |fs| + 1 && frames[|fs|] == Zip(cmds, Responses(q, |cmds|))
  {
    var t := Sessions(fs, p);
    ObservedThen(t, cmds, q);
    SessionsObserved(fs, p);
    SentFramesSnoc(Observe(t), Zip(cmds, Responses(q, |cmds|)));
    SentZip(cmds, Responses(q, |cmds|));
  }
}
