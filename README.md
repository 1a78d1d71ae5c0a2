# PS2 controller driver, modelled in Dafny

A model of a MicroPython driver for a PlayStation 2 controller wired to four
GPIO lines: command, clock and attention (outputs), and data (input). The
driver exchanges bytes with the controller least significant bit first. For
each bit it sets the command line, pulls the clock low, samples the data line
and releases the clock. A command frame is one attention session: attention
goes low, the frame's bytes are exchanged, attention goes high. At start-up
the driver sends the configuration sequence (enter configuration, select
analog mode, exit configuration). It then polls once and checks that byte 1
of the reply is a known mode byte (0x41 digital, 0x73 analog). After that,
every key poll turns the 9-byte reply into a report: an analog-mode flag,
four stick axes (127 when the sticks are not read), and the names of the
pressed buttons in mask order. The buttons are active-low in bytes 3 and 4.

Modules:

- `Bits`: bytes (`bv8`), line levels (`bv1`) and the LSB-first
  correspondence between a byte and eight levels.
- `Catalog`: the command frames, the configuration sequence and the mode
  bytes.
- `Gpio`: the bus as a class. Its fields are the three output levels, the
  peer and a ghost record of every line event.
- `Protocol`: the event trace each operation must produce (a byte exchange,
  a session, a run of sessions), and its readings per line.
- `Sniffer`: an independent bus analyser. It is a state machine that rebuilds
  the frames from a trace of line events.
- `Decoder`: the key report as a pure function `Decode`, its properties, and
  the list-building method `DecodeKeys`, proved equal to it.
- `Controller`: the driver class, with `SendCommand`, `SendCommands`,
  `Configure`, the start-up check in the constructor, and `ReadKeys`.

The peer (the controller at the other end of the wire) is a sequence of
levels that the data line shows, one per read. Once the sequence is used up,
the line rests at a fixed level. Both the levels and the resting level are
arbitrary inputs. Nothing is assumed about what a real controller replies.

Where descriptions of the driver and its code differ, the model follows the
code:

- Buttons 13 and 14 are reported as `O` and `X`, not as circle and cross.
- Frames are 9 bytes long, and the large read is 18. `SendCommands` is
  proved for frames of every length.

## Model

| member | source | states |
|---|---|---|
| Bits.FromBits | ps2_controller.py:88-91 | bit i of the byte assembled from eight levels is the i-th level (LSB-first); the result is a byte by its type, so it is below 256 |
| Bits.FromBitsOf | ps2_controller.py:88-91 | reading back the bits of a byte, LSB-first, gives the byte again |
| Bits.ByteExt | ps2_controller.py:88-91 | two bytes with the same eight bits are equal |
| Bits.AssembledAll | ps2_controller.py:83-92 | OR-accumulating the eight levels shifted by their index gives the byte they carry |
| Catalog.CatalogShape | ps2_controller.py:14-41 | every frame opens with 0x01; the large read is 18 bytes and every other frame 9; the configuration sequence does not contain the motor-enable frame |
| Gpio.Bus.constructor | ps2_controller.py:53-56 | the lines start at the given levels with the given peer and an empty record |
| Gpio.Bus.SetLevel | ps2_controller.py:86-92 | the named line takes the level; the other lines and the peer are unchanged; one drive event is recorded |
| Gpio.Bus.ReadData | ps2_controller.py:91 | the read returns the peer's next level, consumes it, leaves the lines unchanged and records one sample event |
| Protocol.ByteTraceReadings | ps2_controller.py:86-92 | a byte exchange drives the command line low first and then bit 0 to bit 7; it makes eight clock pulses (low, then high); it never drives attention; it samples the data line once per bit |
| Protocol.CmdHeldAtFallingEdge | ps2_controller.py:89-90 | when the clock goes low for the i-th time, the command line carries bit i of the command byte |
| Protocol.PulsesBeforeEdge | ps2_controller.py:90-92 | before the i-th falling clock edge, exactly i complete clock pulses have been made |
| Protocol.SessionFraming | ps2_controller.py:103-108 | a session drives attention low as its first event and high as its last, and never in between |
| Protocol.ExchangesKeepAttention | ps2_controller.py:105-106 | the byte exchanges of a frame never drive attention |
| Protocol.ExchangeOfByte | ps2_controller.py:105-106 | the k-th block of a session's exchanges is the exchange of the k-th command byte against the peer's k-th eight levels |
| Protocol.ResponsesAgree | ps2_controller.py:105-106 | two peers with the same levels for n bytes send back the same n bytes |
| Sniffer.SessionObserved | ps2_controller.py:102-109 | an analyser watching one session sees one frame whose i-th transfer pairs command byte i with response byte i |
| Sniffer.SessionsObserved | ps2_controller.py:71-74 | an analyser watching a run of sessions sees one frame per session, carrying exactly that session's command bytes, in order |
| Sniffer.SessionsThenObserved | ps2_controller.py:58-60 | a run of sessions followed by one more session is seen as those frames and then the last session's frame |
| Controller.Ps2Controller.SendCommand | ps2_controller.py:77-94 | the response is the byte carried LSB-first by the next eight data levels; the peer advances by eight reads; the bus record gains exactly the exchange's events; afterwards the command line holds bit 7, the clock is high and attention is as it was |
| Protocol.CmdHeldAtSample | ps2_controller.py:89-91 | the i-th read of the data line comes right after the i-th falling clock edge, while the command line holds bit i |
| Controller.LoopbackEcho | ps2_controller.py:83-94 | if every read of the data line in an exchange sees the level last driven on the command line, the exchange returns the byte sent |
| Controller.Ps2Controller.SendCommands | ps2_controller.py:96-109 | the result has one byte per command byte, and byte i is the one read while command byte i was sent; the record gains exactly one attention-framed session; afterwards attention is high, and for a non-empty frame the clock is high and the command line holds bit 7 of the last byte |
| Controller.Ps2Controller.ExchangeBytes | ps2_controller.py:102-107 | the loop of a session collects one response per command byte, in order, records the exchanges and leaves attention as it was |
| Controller.Ps2Controller.Configure | ps2_controller.py:69-75 | the record gains the sessions for enter configuration, select mode and exit configuration, in that order, and the peer advances by 27 bytes; afterwards attention and the clock are high and the command line low |
| Controller.ThreeSessions | ps2_controller.py:71-74 | three sessions run back to back, each reading from where the previous one left the peer |
| Controller.Ps2Controller.constructor | ps2_controller.py:58-67 | start-up records the three configuration sessions and then one data poll; the mode check succeeds exactly when byte 1 of the poll reply is 0x41 or 0x73; afterwards attention and the clock are high and the command line low |
| Controller.StartupObserved | ps2_controller.py:58-74 | an analyser sees exactly four frames at start-up: the three configuration frames, then the data poll. The motor-enable frame is not among them. The byte the mode check inspects is the one received while 0x42 was sent |
| Controller.Ps2Controller.ReadKeys | ps2_controller.py:111-135 | the keys are the report decoded from the 9-byte reply to one data poll; the record gains that one session; afterwards attention and the clock are high and the command line low |
| Controller.PollReport | ps2_controller.py:116-127 | a poll reply always has nine bytes, so the short-frame case never arises: each button is reported iff its mask bit is clear, and the flag says whether byte 1 is 0x73 |
| Controller.PollRepeatable | ps2_controller.py:116-135 | two polls in a row, the second reading the peer where the first left it, give the same report when the peer sends the same reply both times |
| Decoder.Decode | ps2_controller.py:111-135 | the report always holds at least the flag and four axes |
| Decoder.Rank | ps2_controller.py:113-114 | each button has a mask position below 16, and the key table names it there |
| Decoder.KeyNamesAgree | ps2_controller.py:113-114 | the button at mask position i is reported under the i-th name of the driver's key table, `O` and `X` included |
| Decoder.RankOfKey | ps2_controller.py:113-114 | the mask position of the i-th key is i, so the table lists each button once |
| Decoder.MaskLow | ps2_controller.py:124-126 | mask bits 0-7 are the bits of byte 3 |
| Decoder.MaskHigh | ps2_controller.py:124-126 | mask bits 8-15 are the bits of byte 4 |
| Decoder.SetPositions | ps2_controller.py:125-127 | the positions of the set flags, strictly increasing, and a position is listed iff its flag is set |
| Decoder.SetPositionsCount | ps2_controller.py:125-127 | one position is listed per set flag |
| Decoder.PressedKeysListed | ps2_controller.py:124-127 | a button is among the pressed keys of a mask iff its mask bit is clear |
| Decoder.PressedKeysOrdered | ps2_controller.py:125-127 | the pressed keys are buttons, listed in strictly increasing mask position |
| Decoder.DecodeHeader | ps2_controller.py:118-133 | the flag is set iff the reply is full (9 bytes or more) and byte 1 is 0x73. Each axis is its reply byte (5 to 8) in analog mode, and 127 otherwise: in digital mode whatever bytes 5-8 hold, and for a short reply |
| Decoder.DecodeShort | ps2_controller.py:118-119 | a reply shorter than nine bytes gives exactly the degraded report: flag false, four axes at 127, no button |
| Decoder.DecodeButtons | ps2_controller.py:118-127 | a button is reported iff the reply is full and its bit in bytes 3-4 is clear; a short reply reports no button |
| Decoder.DecodeTail | ps2_controller.py:122-127 | for a full reply, the entries after the five header entries are exactly the pressed keys of the mask from bytes 3-4, and no header entry is a button |
| Decoder.DecodeOrder | ps2_controller.py:125-127 | after the header come only buttons, each once, in increasing mask position |
| Decoder.DecodeLength | ps2_controller.py:122-127 | a full reply's report has 5 entries plus one per clear mask bit |
| Decoder.AllButtonsPressed | ps2_controller.py:121-133 | an analog reply with mask bytes 0x00, 0x00 reports all sixteen buttons, and the axes are bytes 5-8 unchanged |
| Decoder.NoButtonPressed | ps2_controller.py:124-127 | a reply with mask bytes 0xFF, 0xFF reports no button in either mode: the report is its five header entries |
| Decoder.AppendPressed | ps2_controller.py:124-127 | the 16-step loop appends exactly the pressed keys of the mask to the list it is given |
| Decoder.DecodeKeys | ps2_controller.py:118-135 | building the list step by step (the header first, then the pressed keys, then axes 1-4 overwritten in analog mode) gives exactly the report `Decode` defines |

## Left out

- Timing: the two 10 ms settle delays, after configuration and after the
  start-up poll, are not modelled; the driver puts no delay between clock
  edges. The model fixes the order of line events, not their timing.
- Pin construction and pin numbers: the hardware pin API is replaced by the
  `Bus` class and its peer.
- The printed start-up diagnostics: the model keeps only whether the mode
  check succeeded, in the field `modeOk`. The check happens once per
  constructor call, so a reply with mode byte 0x99 sets `modeOk` to false
  exactly once.
- The example polling program: it polls in an endless loop and prints a
  report when a button is down or a stick is off centre; none of this is
  protocol logic.
- Electrical behaviour of a real controller: what a controller replies is
  arbitrary input, given by the peer's levels.
- The peer does not react to the command line. A controller that answers
  depending on what it is sent is covered, because its levels can be any
  sequence. `LoopbackEcho` states the echo case as a condition on the
  recorded events.
- Button names: the report holds `Key(b)` for a `Button` value `b`, and
  `Name(b)` gives the string the driver reports for it, as `KeyNamesAgree`
  states.
- Decoder.Decode: its own contract states only the report's minimum length.
  The meaning of the report is stated by the lemmas about it.
