/** Decoding the controller's reply to a data poll into the key report: the
    analog-mode flag, the four stick axes and the names of the pressed
    buttons. Buttons are reported active-low in bytes 3 (low octet) and 4
    (high octet) of the reply; the sticks are bytes 5 to 8, and only meaningful
    when byte 1 reports analog mode. */
module Decoder {
  import opened Bits
  import opened Catalog
  import opened Seqs

  /** The sixteen buttons, one per bit of the button mask. */
  datatype Button =
    | SELECT | L3 | R3 | START | UP | RIGHT | DOWN | LEFT
    | L2 | R2 | L1 | R1 | TRIANGLE | O | X | SQUARE

  /** The buttons in mask order: bit i of the mask belongs to Keys[i]. */
  const Keys: seq<Button> :=
    [SELECT, L3, R3, START, UP, RIGHT, DOWN, LEFT, L2, R2, L1, R1, TRIANGLE, O, X, SQUARE]

  /** The name under which a pressed button is reported. */
  function Name(b: Button): string
  {
    match b
    case SELECT => "SELECT"
    case L3 => "L3"
    case R3 => "R3"
    case START => "START"
    case UP => "UP"
    case RIGHT => "RIGHT"
    case DOWN => "DOWN"
    case LEFT => "LEFT"
    case L2 => "L2"
    case R2 => "R2"
    case L1 => "L1"
    case R1 => "R1"
    case TRIANGLE => "TRIANGLE"
    case O => "O"
    case X => "X"
    case SQUARE => "SQUARE"
  }

  /** The names of the buttons in mask order, as the driver lists them. */
  const KeyNames: seq<string> :=
    ["SELECT", "L3", "R3", "START", "UP", "RIGHT", "DOWN", "LEFT",
     "L2", "R2", "L1", "R1", "TRIANGLE", "O", "X", "SQUARE"]

  /** The button at mask position i is reported under the i-th listed name. */
  lemma KeyNamesAgree()
    ensures |KeyNames| == |Keys| == 16
    ensures forall i :: 0 <= i < 16 ==> Name(Keys[i]) == KeyNames[i]
  {
  }

  /** The axis value reported when the sticks are not read: the centre. */
  const Centre: Byte := 127

  /** One entry of a key report: the leading analog-mode flag, a stick axis,
      or a pressed button. */
  datatype Entry = Flag(on: bool) | Axis(value: Byte) | Key(button: Button)

  /** The report's header when no stick is read. */
  function Header(analog: bool): seq<Entry>
  {
    [Flag(analog), Axis(Centre), Axis(Centre), Axis(Centre), Axis(Centre)]
  }

  /** The sixteen-bit button mask: byte 4 high, byte 3 low. */
  function Mask(lo: Byte, hi: Byte): bv16
  {
    ((hi as bv16) << 8) | (lo as bv16)
  }

  /** Button i is pressed when its mask bit is clear (active low). */
  predicate Pressed(mask: bv16, i: nat)
    requires i < 16
  {
    mask & (1 << i) == 0
  }

  /** Whether the reply reports button i down, read straight from the reply's
      bytes: bit i of byte 3 for i < 8, bit i - 8 of byte 4 otherwise, low
      meaning pressed. */
  predicate ButtonDown(data: seq<Byte>, i: nat)
    requires |data| >= 9 && i < 16
  {
    (if i < 8 then BitAt(data[3], i) else BitAt(data[4], i - 8)) == 0
  }

  /** For each mask position, whether the mask shows that button pressed. */
  function PressedFlags(mask: bv16): (f: seq<bool>)
    ensures |f| == 16
    ensures forall i :: 0 <= i < 16 ==> f[i] == Pressed(mask, i)
  {
    seq(16, i requires 0 <= i < 16 => Pressed(mask, i))
  }

  /** The positions of the set flags, lowest first. */
  function SetPositions(f: seq<bool>): (r: seq<nat>)
    ensures forall k :: 0 <= k < |r| ==> r[k] < |f|
    ensures forall a, b :: 0 <= a < b < |r| ==> r[a] < r[b]
    ensures forall i: nat :: i in r <==> i < |f| && f[i]
  {
    if f == [] then []
    else SetPositions(f[..|f| - 1]) + (if f[|f| - 1] then [|f| - 1] else [])
  }

  /** The report entries naming the buttons at the given mask positions. */
  function Named(idx: seq<nat>): (r: seq<Entry>)
    requires forall k :: 0 <= k < |idx| ==> idx[k] < 16
    ensures |r| == |idx|
    ensures forall k :: 0 <= k < |idx| ==> r[k] == Key(Keys[idx[k]])
  {
    seq(|idx|, k requires 0 <= k < |idx| => Key(Keys[idx[k]]))
  }

  /** The report entries of the buttons a mask shows pressed, in mask order. */
  function PressedKeys(mask: bv16): seq<Entry>
  {
    Named(SetPositions(PressedFlags(mask)))
  }

  /** The key report for a poll reply. A reply shorter than nine bytes gives
      the empty report: digital, sticks centred, nothing pressed. Otherwise
      the flag says whether byte 1 reports analog mode, the axes are bytes 5
      to 8 in analog mode and centred otherwise, and the pressed buttons
      follow in mask order. */
  function Decode(data: seq<Byte>): (r: seq<Entry>)
    ensures |r| >= 5
  {
    if |data| < 9 then Header(false)
    else
      var analog := data[1] == AnalogMode;
      var head := if analog then [Flag(true), Axis(data[5]), Axis(data[6]), Axis(data[7]), Axis(data[8])]
                  else Header(false);
      head + PressedKeys(Mask(data[3], data[4]))
  }

  /** The position of a button in the mask. */
  function Rank(b: Button): (i: nat)
    ensures i < 16 && Keys[i] == b
  {
    match b
    case SELECT => 0
    case L3 => 1
    case R3 => 2
    case START => 3
    case UP => 4
    case RIGHT => 5
    case DOWN => 6
    case LEFT => 7
    case L2 => 8
    case R2 => 9
    case L1 => 10
    case R1 => 11
    case TRIANGLE => 12
    case O => 13
    case X => 14
    case SQUARE => 15
  }

  /** Each mask position names a different button. */
  lemma RankOfKey(i: nat)
    requires i < 16
    ensures Rank(Keys[i]) == i
  {
  }

  /** The mask test of a low-octet button reads bit i of byte 3. */
  lemma MaskLow(lo: Byte, hi: Byte, i: nat)
    requires i < 8
    ensures Pressed(Mask(lo, hi), i) <==> BitAt(lo, i) == 0
  {
  }

  /** The mask test of a high-octet button reads bit i - 8 of byte 4. */
  lemma MaskHigh(lo: Byte, hi: Byte, i: nat)
    requires 8 <= i < 16
    ensures Pressed(Mask(lo, hi), i) <==> BitAt(hi, i - 8) == 0
  {
  }

  /** Header of the report: the flag is set exactly when a full reply reports
      analog mode, and each axis is its reply byte then and the centre
      otherwise, whatever the reply's length. */
  lemma DecodeHeader(data: seq<Byte>)
    ensures var analog := |data| >= 9 && data[1] == AnalogMode;
            var r := Decode(data);
            r[0] == Flag(analog) &&
            forall k :: 1 <= k <= 4 ==> r[k] == Axis(if analog then data[k + 4] else Centre)
  {
  }

  /** The entries for some mask positions name a button exactly when its
      position is among them. */
  lemma NamedListed(idx: seq<nat>, j: nat)
    requires forall k :: 0 <= k < |idx| ==> idx[k] < 16
    requires j < 16
    ensures Key(Keys[j]) in Named(idx) <==> j in idx
  {
    var r := Named(idx);
    if j in idx {
      var k :| 0 <= k < |idx| && idx[k] == j;
      assert r[k] == Key(Keys[j]);
    }
    if Key(Keys[j]) in r {
      var k :| 0 <= k < |r| && r[k] == Key(Keys[j]);
      RankOfKey(idx[k]);
      RankOfKey(j);
    }
  }

  /** A mask lists a button exactly when it shows that button pressed. */
  lemma PressedKeysListed(mask: bv16, b: Button)
    ensures Key(b) in PressedKeys(mask) <==> Pressed(mask, Rank(b))
  {
    NamedListed(SetPositions(PressedFlags(mask)), Rank(b));
  }

  /** The entries for increasing mask positions are buttons in mask order. */
  lemma NamedOrdered(idx: seq<nat>)
    requires forall k :: 0 <= k < |idx| ==> idx[k] < 16
    requires forall a, b :: 0 <= a < b < |idx| ==> idx[a] < idx[b]
    ensures forall a :: 0 <= a < |Named(idx)| ==> Named(idx)[a].Key?
    ensures forall a, b :: 0 <= a < b < |Named(idx)| ==>
              Rank(Named(idx)[a].button) < Rank(Named(idx)[b].button)
  {
    var r := Named(idx);
    forall a | 0 <= a < |r|
      ensures r[a].Key? && Rank(r[a].button) == idx[a]
    {
      RankOfKey(idx[a]);
    }
  }

  /** A mask lists buttons only, in mask order. */
  lemma PressedKeysOrdered(mask: bv16)
    ensures forall a :: 0 <= a < |PressedKeys(mask)| ==> PressedKeys(mask)[a].Key?
    ensures forall a, b :: 0 <= a < b < |PressedKeys(mask)| ==>
              Rank(PressedKeys(mask)[a].button) < Rank(PressedKeys(mask)[b].button)
  {
    NamedOrdered(SetPositions(PressedFlags(mask)));
  }

  /** A full reply's report is its header followed by the buttons its mask
      shows pressed. */
  lemma DecodeTail(data: seq<Byte>)
    requires |data| >= 9
    ensures Decode(data)[5..] == PressedKeys(Mask(data[3], data[4]))
    ensures forall a :: 0 <= a < 5 ==> !Decode(data)[a].Key?
  {
  }

  /** Buttons of the report: a button is listed exactly when the reply is a
      full one and its bit is low in the reply. */
  lemma DecodeButtons(data: seq<Byte>, b: Button)
    ensures Key(b) in Decode(data) <==> |data| >= 9 && ButtonDown(data, Rank(b))
  {
    var r := Decode(data);
    if |data| >= 9 {
      var i := Rank(b);
      DecodeTail(data);
      PressedKeysListed(Mask(data[3], data[4]), b);
      if i < 8 { MaskLow(data[3], data[4], i); } else { MaskHigh(data[3], data[4], i); }
      ListedAfterHeader(r, Key(b));
    }
  }

  /** An entry that is not in the header is in the rest of the report. */
  lemma ListedAfterHeader(r: seq<Entry>, e: Entry)
    requires |r| >= 5 && forall a :: 0 <= a < 5 ==> r[a] != e
    ensures e in r <==> e in r[5..]
  {
    if e in r {
      var a :| 0 <= a < |r| && r[a] == e;
      assert r[5..][a - 5] == e;
    }
  }

  /** Order of the report: after the five header entries come only buttons,
      each listed once, in mask order. */
  lemma DecodeOrder(data: seq<Byte>)
    ensures forall a :: 5 <= a < |Decode(data)| ==> Decode(data)[a].Key?
    ensures forall a, b :: 5 <= a < b < |Decode(data)| ==>
              Rank(Decode(data)[a].button) < Rank(Decode(data)[b].button)
  {
    if |data| >= 9 {
      var r := Decode(data);
      DecodeTail(data);
      PressedKeysOrdered(Mask(data[3], data[4]));
      forall a | 5 <= a < |r|
        ensures r[a] == r[5..][a - 5]
      {
      }
    }
  }

  /** The positions of the flags among the first n are those among the first
      n - 1, then n - 1 if its flag is set. */
  lemma SetPositionsSnoc(f: seq<bool>, n: nat)
    requires 0 < n <= |f|
    ensures f[n - 1] ==> SetPositions(f[..n]) == SetPositions(f[..n - 1]) + [n - 1]
    ensures !f[n - 1] ==> SetPositions(f[..n]) == SetPositions(f[..n - 1])
  {
    PrefixOfPrefix(f, n - 1, n);
  }

  /** Naming one more mask position appends its button. */
  lemma NamedSnoc(idx: seq<nat>, j: nat)
    requires forall k :: 0 <= k < |idx| ==> idx[k] < 16
    requires j < 16
    ensures Named(idx + [j]) == Named(idx) + [Key(Keys[j])]
  {
  }

  /** Appends to keys the buttons the mask shows pressed, scanning it from
      bit 0 to bit 15. */
  method AppendPressed(keys0: seq<Entry>, allKeys: bv16) returns (keys: seq<Entry>)
    ensures keys == keys0 + PressedKeys(allKeys)
  {
    keys := keys0;
    ghost var f := PressedFlags(allKeys);
    for i := 0 to 16
      invariant keys == keys0 + Named(SetPositions(f[..i]))
    {
      ghost var prev := SetPositions(f[..i]);
      SetPositionsSnoc(f, i + 1);
      if Pressed(allKeys, i) {
        NamedSnoc(prev, i);
        AppendSnoc(keys0, Named(prev), Key(Keys[i]), Named(prev + [i]));
        keys := keys + [Key(Keys[i])];
      }
    }
    PrefixAll(f);
  }

  /** The key report built as the driver builds it: the header first, then
      the pressed buttons, then, in analog mode, the four axes written over
      the centred ones. */
  method DecodeKeys(data: seq<Byte>) returns (keys: seq<Entry>)
    ensures keys == Decode(data)
  {
    if |data| < 9 {
      return Header(false);
    }
    var analog := data[1] == AnalogMode;
    var allKeys := Mask(data[3], data[4]);
    keys := AppendPressed(Header(analog), allKeys);
    if analog {
      keys := keys[1 := Axis(data[5])];
      keys := keys[2 := Axis(data[6])];
      keys := keys[3 := Axis(data[7])];
      keys := keys[4 := Axis(data[8])];
      OverwriteAxes(PressedKeys(allKeys), data[5], data[6], data[7], data[8]);
    }
    DecodeFull(data);
  }

  /** Writing the four axes over the centred header of a report. */
  lemma OverwriteAxes(t: seq<Entry>, rx: Byte, ry: Byte, lx: Byte, ly: Byte)
    ensures (Header(true) + t)[1 := Axis(rx)][2 := Axis(ry)][3 := Axis(lx)][4 := Axis(ly)] ==
            [Flag(true), Axis(rx), Axis(ry), Axis(lx), Axis(ly)] + t
  {
  }

  /** The report of a full reply: its header, then its pressed buttons. */
  lemma DecodeFull(data: seq<Byte>)
    requires |data| >= 9
    ensures Decode(data) ==
            (if data[1] == AnalogMode then [Flag(true), Axis(data[5]), Axis(data[6]), Axis(data[7]), Axis(data[8])]
             else Header(false)) + PressedKeys(Mask(data[3], data[4]))
  {
  }

  /** The number of set flags. */
  function SetCount(f: seq<bool>): (n: nat)
    ensures n <= |f|
  {
    if f == [] then 0 else SetCount(f[..|f| - 1]) + (if f[|f| - 1] then 1 else 0)
  }

  /** There is one position per set flag. */
  lemma {:induction false} SetPositionsCount(f: seq<bool>)
    ensures |SetPositions(f)| == SetCount(f)
  {
    if f != [] {
      SetPositionsCount(f[..|f| - 1]);
    }
  }

  /** A full reply's report has the five header entries and then one entry
      per clear bit of the button mask. */
  lemma DecodeLength(data: seq<Byte>)
    requires |data| >= 9
    ensures |Decode(data)| == 5 + SetCount(PressedFlags(Mask(data[3], data[4])))
  {
    DecodeTail(data);
    SetPositionsCount(PressedFlags(Mask(data[3], data[4])));
  }

  /** A reply shorter than nine bytes gives the degraded report: digital,
      sticks centred, no button. */
  lemma DecodeShort(data: seq<Byte>)
    requires |data| < 9
    ensures Decode(data) == Header(false)
  {
  }

  /** Every bit of the all-clear byte is low. */
  lemma ClearByteBits(i: nat)
    requires i < 8
    ensures BitAt(0x00, i) == 0
  {
    if i == 0 {} else if i == 1 {} else if i == 2 {} else if i == 3 {}
    else if i == 4 {} else if i == 5 {} else if i == 6 {} else {}
  }

  /** Every bit of the all-set byte is high. */
  lemma SetByteBits(i: nat)
    requires i < 8
    ensures BitAt(0xFF, i) == 1
  {
    if i == 0 {} else if i == 1 {} else if i == 2 {} else if i == 3 {}
    else if i == 4 {} else if i == 5 {} else if i == 6 {} else {}
  }

  /** A full analog reply whose mask bytes are both clear reports every button
      pressed and the four stick bytes as they came. */
  lemma AllButtonsPressed(data: seq<Byte>)
    requires |data| >= 9 && data[1] == AnalogMode && data[3] == 0x00 && data[4] == 0x00
    ensures forall b: Button :: Key(b) in Decode(data)
    ensures Decode(data)[..5] == [Flag(true), Axis(data[5]), Axis(data[6]), Axis(data[7]), Axis(data[8])]
  {
    forall b: Button
      ensures Key(b) in Decode(data)
    {
      DecodeButtons(data, b);
      var i := Rank(b);
      if i < 8 { ClearByteBits(i); } else { ClearByteBits(i - 8); }
    }
    DecodeHeader(data);
  }

  /** A reply whose mask bytes are both set reports no button, in either
      mode: the report is its five header entries. */
  lemma NoButtonPressed(data: seq<Byte>)
    requires |data| >= 9 && data[3] == 0xFF && data[4] == 0xFF
    ensures |Decode(data)| == 5
  {
    var r := Decode(data);
    DecodeOrder(data);
    if |r| > 5 {
      var b := r[5].button;
      DecodeButtons(data, b);
      var i := Rank(b);
      if i < 8 { SetByteBits(i); } else { SetByteBits(i - 8); }
    }
  }
}
