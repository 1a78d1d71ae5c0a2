/** The driver: a controller on a four-wire bus, the byte exchange, the
    attention-framed command session, the configuration sequence, the startup
    mode check and the key poll. */
module Controller {
  import opened Bits
  import opened Gpio
  import opened Protocol
  import opened Catalog
  import opened Decoder
  import opened Sniffer
  import opened Seqs

  class Ps2Controller {
    /** The lines of the port the controller is wired to. */
    const bus: Bus
    /** Outcome of the startup mode check: the controller answered the first
        data poll with a known mode byte. */
    var modeOk: bool

    /** Configures the controller, then polls it once and checks that byte 1
        of the reply is a known mode. */
    constructor (bus0: Bus)
      modifies bus0
      ensures bus == bus0
      ensures bus.trace == old(bus0.trace) + Sessions(ConfigSequence, old(bus0.peer))
                           + SessionTrace(CmdReadData, old(bus0.peer).Drop(8 * 27))
      ensures bus.peer == old(bus0.peer).Drop(8 * 36)
      ensures modeOk <==> Responses(old(bus0.peer).Drop(8 * 27), 9)[1] in ValidModes
      ensures bus.cmd == 0 && bus.clk == 1 && bus.cs == 1
    {
      bus := bus0;
      new;
      Configure();
      var result := SendCommands(CmdReadData);
      DropDrop(old(bus0.peer), 8 * 27, 8 * 9);
      modeOk := |result| > 0 && result[1] in ValidModes;
    }

    /** Sends the configuration frames: enter configuration, select analog
        mode, leave configuration. */
    method Configure()
      modifies bus
      ensures bus.trace == old(bus.trace) + Sessions(ConfigSequence, old(bus.peer))
      ensures bus.peer == old(bus.peer).Drop(8 * 27)
      ensures bus.cmd == 0 && bus.clk == 1 && bus.cs == 1
    {
      ghost var p0, t0 := bus.peer, bus.trace;
      var _ := SendCommands(CmdConfigEnter);
      var _ := SendCommands(CmdConfigMode);
      var _ := SendCommands(CmdConfigExit);
      DropDrop(p0, 8 * 9, 8 * 9);
      DropDrop(p0, 8 * 18, 8 * 9);
      ThreeSessions(CmdConfigEnter, CmdConfigMode, CmdConfigExit, p0);
      ghost var s1, s2, s3 := SessionTrace(CmdConfigEnter, p0), SessionTrace(CmdConfigMode, p0.Drop(72)),
        SessionTrace(CmdConfigExit, p0.Drop(144));
      AppendAssoc(t0 + s1, s2, s3);
      AppendAssoc(t0, s1, s2 + s3);
    }

    /** Exchanges one byte, least significant bit first: for each bit, put it
        on the command line, pull the clock low, read the data line into the
        response, release the clock. */
    method SendCommand(command: Byte) returns (response: Byte)
      modifies bus
      ensures response == FromBits(old(bus.peer).Samples(8))
      ensures bus.peer == old(bus.peer).Drop(8)
      ensures bus.trace == old(bus.trace) + ByteTrace(command, old(bus.peer).Samples(8))
      ensures bus.cmd == BitAt(command, 7) && bus.clk == 1 && bus.cs == old(bus.cs)
    {
      ghost var p0, t0 := bus.peer, bus.trace;
      ghost var s := p0.Samples(8);
      response := 0;
      bus.SetLevel(Cmd, 0);
      for i := 0 to 8
        invariant bus.peer == p0.Drop(i)
        invariant bus.trace == t0 + [Drive(Cmd, 0)] + Cells(command, s, i)
        invariant response == Assembled(s, i)
        invariant bus.cs == old(bus.cs)
        invariant 0 < i ==> bus.cmd == BitAt(command, i - 1) && bus.clk == 1
      {
        ghost var t := bus.trace;
        bus.SetLevel(Cmd, ((command >> i) & 1) as Bit);
        bus.SetLevel(Clk, 0);
        var d := bus.ReadData();
        response := response | ((d as Byte) << i);
        bus.SetLevel(Clk, 1);
        DropDrop(p0, i, 1);
        CellStep(t0, command, s, i, t);
      }
      AssembledAll(s);
      AppendAssoc(t0, [Drive(Cmd, 0)], Cells(command, s, |s|));
    }

    /** Exchanges a frame inside one attention session and returns the bytes
        the controller sent back, one per byte sent. */
    method SendCommands(commands: seq<Byte>) returns (result: seq<Byte>)
      modifies bus
      ensures result == Responses(old(bus.peer), |commands|)
      ensures bus.peer == old(bus.peer).Drop(8 * |commands|)
      ensures bus.trace == old(bus.trace) + SessionTrace(commands, old(bus.peer))
      ensures bus.cs == 1
      ensures bus.clk == (if |commands| > 0 then 1 else old(bus.clk))
      ensures bus.cmd == (if |commands| > 0 then BitAt(commands[|commands| - 1], 7) else old(bus.cmd))
    {
      ghost var p0, t0 := bus.peer, bus.trace;
      bus.SetLevel(Cs, 0);
      result := ExchangeBytes(commands);
      bus.SetLevel(Cs, 1);
      SessionClosed(t0, commands, p0);
    }

    /** The loop of a session: exchanges the bytes of a frame in order and
        collects the responses, leaving attention as it is. */
    method ExchangeBytes(commands: seq<Byte>) returns (result: seq<Byte>)
      modifies bus
      ensures result == Responses(old(bus.peer), |commands|)
      ensures bus.peer == old(bus.peer).Drop(8 * |commands|)
      ensures bus.trace == old(bus.trace) + Exchanges(commands, old(bus.peer))
      ensures bus.cs == old(bus.cs)
      ensures bus.clk == (if |commands| > 0 then 1 else old(bus.clk))
      ensures bus.cmd == (if |commands| > 0 then BitAt(commands[|commands| - 1], 7) else old(bus.cmd))
    {
      ghost var p0, t0 := bus.peer, bus.trace;
      result := [];
      for k := 0 to |commands|
        invariant bus.peer == p0.Drop(8 * k)
        invariant bus.trace == t0 + Exchanges(commands[..k], p0)
        invariant result == Responses(p0, k)
        invariant bus.cs == old(bus.cs)
        invariant k == 0 ==> bus.clk == old(bus.clk) && bus.cmd == old(bus.cmd)
        invariant 0 < k ==> bus.clk == 1 && bus.cmd == BitAt(commands[k - 1], 7)
      {
        ghost var t := bus.trace;
        var r := SendCommand(commands[k]);
        result := result + [r];
        DropDrop(p0, 8 * k, 8);
        ExchangeStep(t0, commands, p0, k, t);
        ResponsesSnoc(p0, k);
      }
      PrefixAll(commands);
    }

    /** Polls the controller and decodes its reply into the key report. */
    method ReadKeys() returns (keys: seq<Entry>)
      modifies bus
      ensures keys == Decode(Responses(old(bus.peer), 9))
      ensures bus.trace == old(bus.trace) + SessionTrace(CmdReadData, old(bus.peer))
      ensures bus.peer == old(bus.peer).Drop(8 * 9)
      ensures bus.cmd == 0 && bus.clk == 1 && bus.cs == 1
    {
      var data := SendCommands(CmdReadData);
      keys := DecodeKeys(data);
    }
  }

  /** Three sessions, one frame after the other, each reading on where the
      previous one left the peer. */
  lemma ThreeSessions(a: seq<Byte>, b: seq<Byte>, c: seq<Byte>, p: Peer)
    ensures Sessions([a, b, c], p) ==
            SessionTrace(a, p) + (SessionTrace(b, p.Drop(8 * |a|)) + SessionTrace(c, p.Drop(8 * |a| + 8 * |b|)))
  {
    var fs := [a, b, c];
    SessionsFirst(fs, p);
    assert fs[1..] == [b, c];
    SessionsFirst([b, c], p.Drop(8 * |a|));
    assert [b, c][1..] == [c];
    SessionsFirst([c], p.Drop(8 * |a|).Drop(8 * |b|));
    DropDrop(p, 8 * |a|, 8 * |b|);
    assert [c][1..] == [];
    AppendEmpty(SessionTrace(c, p.Drop(8 * |a| + 8 * |b|)));
  }

  /** Loopback: if the peer echoes the command line, so that every read of
      the data line sees the level last driven on the command line, the byte
      exchange returns the byte sent. */
  lemma LoopbackEcho(c: Byte, s: seq<Bit>)
    requires |s| == 8 && Echoes(ByteTrace(c, s))
    ensures FromBits(s) == c
  {
    forall i | 0 <= i < 8
      ensures s[i] == BitAt(c, i)
    {
      CmdHeldAtSample(c, s, i);
      assert ByteTrace(c, s)[4 * i + 3].Sample?;
    }
    ByteExt(FromBits(s), c);
  }

  /** Startup, as an analyser on the bus sees it: four frames, the three
      configuration frames and then the data poll, and no motor-enable frame;
      the byte the mode check inspects is the one received while byte 1 (0x42)
      of the poll was sent. */
  lemma StartupObserved(p: Peer)
    ensures var frames := Observe(Sessions(ConfigSequence, p) + SessionTrace(CmdReadData, p.Drop(8 * 27)));
            SentFrames(frames) == [CmdConfigEnter, CmdConfigMode, CmdConfigExit, CmdReadData] &&
            CmdMotorEnable !in SentFrames(frames) &&
            |frames| == 4 && frames[3] == Zip(CmdReadData, Responses(p.Drop(8 * 27), 9)) &&
            frames[3][1] == Transfer(0x42, Responses(p.Drop(8 * 27), 9)[1])
  {
    SessionsThenObserved(ConfigSequence, p, CmdReadData, p.Drop(8 * 27));
    CatalogShape();
    assert CmdMotorEnable[1] != CmdReadData[1];
  }

  /** The poll reply always has nine bytes, so the short-reply case never
      arises through a poll: a button is reported iff its mask bit is clear,
      and the flag says whether byte 1 is the analog mode byte. */
  lemma PollReport(p: Peer)
    ensures var r := Responses(p, 9);
            (forall b: Button :: Key(b) in Decode(r) <==> ButtonDown(r, Rank(b))) &&
            Decode(r)[0] == Flag(r[1] == AnalogMode)
  {
    var r := Responses(p, 9);
    forall b: Button
      ensures Key(b) in Decode(r) <==> ButtonDown(r, Rank(b))
    {
      DecodeButtons(r, b);
    }
    DecodeHeader(r);
  }

  /** Two polls in a row: the second reads the peer where the first left it.
      If the peer sends the same reply both times, the two reports are the
      same. */
  lemma PollRepeatable(p: Peer)
    requires forall k :: 0 <= k < 8 * 9 ==> p.Level(k) == p.Level(8 * 9 + k)
    ensures Decode(Responses(p, 9)) == Decode(Responses(p.Drop(8 * 9), 9))
  {
    ResponsesAgree(p, p.Drop(8 * 9), 9);
  }
}
