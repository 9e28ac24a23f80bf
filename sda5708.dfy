/**
 * The SDA5708 display driver of lib/SDA5708/SDA5708.h: the command bytes it
 * builds, the glyph rows it reads from the font table, how it lays text out over
 * the eight digits, and the `SDA5708` class itself, whose methods append pin
 * effects to a trace.
 */
module Sda5708 {
  import opened SeqFacts
  import opened Sda5708Wire

  /** The font holds one glyph for each character 0x20 .. 0x7F, seven rows each. */
  const GlyphCount := 96
  const RowsPerGlyph := 7

  /** The font table (font.h); its contents are a parameter of the model. */
  type FontTable = f: seq<byte> | |f| == 96 * 7 witness seq(96 * 7, _ => 0)

  /** The classes of byte the driver sends, told apart by their high bits. */
  datatype Command =
    | SelectDigit(position: byte)   // 1010 0ppp: the next rows go to digit ppp
    | SetBrightness(level: byte)    // 1110 0bbb: brightness level bbb
    | RowPixels(pixels: byte)       // 000p pppp: one row of five pixels
    | Unrecognised(raw: byte)

  function DecodeCommand(b: byte): Command
  {
    if b & 0xE0 == 0 then RowPixels(b)
    else if b & 0xF8 == 0xA0 then SelectDigit(b & 7)
    else if b & 0xF8 == 0xE0 then SetBrightness(b & 7)
    else Unrecognised(b)
  }

  /** `brightness(val)`: the control byte with the low three bits of `val`. */
  function BrightnessCommand(val: byte): (c: byte)
    ensures DecodeCommand(c) == SetBrightness(val & 7)
    ensures val <= 7 ==> DecodeCommand(c) == SetBrightness(val)
  {
    0xE0 | (val & 7)
  }

  /** The driver's treatment of a digit position past the last one: it falls back to 0. */
  function ClampCursor(c: byte): byte
  {
    if c > 7 then 0 else c
  }

  /** `setCyrsor(cursor)`: the address byte of the (clamped) digit position. */
  function CursorCommand(cursor: byte): (c: byte)
    ensures DecodeCommand(c) == SelectDigit(ClampCursor(cursor))
    ensures c & 7 == ClampCursor(cursor)
    ensures cursor <= 7 ==> DecodeCommand(c) == SelectDigit(cursor)
    ensures cursor > 7 ==> DecodeCommand(c) == SelectDigit(0)
  {
    0xA0 | ClampCursor(cursor)
  }

  /** `digit` draws a character outside 0x20 .. 0x7F as a space. */
  function Printable(sign: byte): (p: byte)
    ensures 0x20 <= p <= 0x7F
    ensures 0x20 <= sign <= 0x7F ==> p == sign
  {
    if sign < 0x20 || sign > 0x7F then 0x20 else sign
  }

  /** Where row `i` of the glyph for `sign` sits in the font table. */
  function GlyphIndex(sign: byte, i: nat): (k: nat)
    requires i < RowsPerGlyph
    ensures k < GlyphCount * RowsPerGlyph
  {
    (Printable(sign) - 0x20) as int * RowsPerGlyph + i
  }

  /** Row `i` of the glyph for `sign` as `digit` sends it: the font byte with its three low bits dropped. */
  function GlyphRow(font: FontTable, sign: byte, i: nat): (row: byte)
    requires i < RowsPerGlyph
    ensures row < 32
  {
    font[GlyphIndex(sign, i)] / 8
  }

  /** The seven row bytes `digit` sends for `sign`. */
  function GlyphRows(font: FontTable, sign: byte): (rows: seq<byte>)
    ensures |rows| == RowsPerGlyph
  {
    seq(RowsPerGlyph, i requires 0 <= i < RowsPerGlyph => GlyphRow(font, sign, i))
  }

  /** The bytes of `digit(sign, d)`: the address of digit `d`, then the seven rows of the glyph. */
  function DigitBytes(font: FontTable, sign: byte, d: byte): (bs: seq<byte>)
    ensures |bs| == 1 + RowsPerGlyph
  {
    [CursorCommand(ClampCursor(d))] + GlyphRows(font, Printable(sign))
  }

  /**
   * `digit` sends exactly eight bytes: one digit address, with the position
   * clamped to 0 .. 7, then seven row bytes, each of them the font row of the
   * (sanitised) character and each read by the display as pixels.
   */
  lemma DigitDecodes(font: FontTable, sign: byte, d: byte)
    ensures |DigitBytes(font, sign, d)| == 8
    ensures DecodeCommand(DigitBytes(font, sign, d)[0]) == SelectDigit(ClampCursor(d))
    ensures forall i :: 0 <= i < RowsPerGlyph ==>
      DigitBytes(font, sign, d)[i + 1] == GlyphRow(font, Printable(sign), i) &&
      DecodeCommand(DigitBytes(font, sign, d)[i + 1]) == RowPixels(GlyphRow(font, Printable(sign), i))
  {
    var bs := DigitBytes(font, sign, d);
    forall i | 0 <= i < RowsPerGlyph
      ensures DecodeCommand(bs[i + 1]) == RowPixels(GlyphRow(font, Printable(sign), i))
    {
      RowDecodes(GlyphRow(font, Printable(sign), i));
    }
  }

  lemma RowDecodes(row: byte)
    requires row < 32
    ensures DecodeCommand(row) == RowPixels(row)
  {
  }

  /** A character outside 0x20 .. 0x7F is drawn exactly as a space would be. */
  lemma UnprintableIsSpace(font: FontTable, sign: byte, d: byte)
    requires sign < 0x20 || sign > 0x7F
    ensures DigitBytes(font, sign, d) == DigitBytes(font, 0x20, d)
  {
  }

  /** The text a `char *` stands for: everything before the first NUL (or all of it). */
  function CString(text: seq<byte>): (s: seq<byte>)
    ensures |s| <= |text| && s == text[..|s|]
    ensures forall i :: 0 <= i < |s| ==> s[i] != 0
    ensures |s| < |text| ==> text[|s|] == 0
  {
    if text == [] || text[0] == 0 then [] else [text[0]] + CString(text[1..])
  }

  /** The bytes `print`/`printAt` send for `s` when the first character goes to cursor `c`; the `uint8_t` cursor advances by one (mod 256) per character. */
  function TextBytes(font: FontTable, s: seq<byte>, c: byte): (bs: seq<byte>)
    ensures |bs| == 8 * |s|
  {
    if s == [] then [] else DigitBytes(font, s[0], c) + TextBytes(font, s[1..], c + 1)
  }

  lemma TextBytesStep(font: FontTable, s: seq<byte>, i: nat, c: byte)
    requires i < |s|
    ensures TextBytes(font, s[i..], c) == DigitBytes(font, s[i], c) + TextBytes(font, s[i + 1..], c + 1)
  {
    assert s[i..][1..] == s[i + 1..];
  }

  /** One round of the loop of `print`/`printAt`: the bytes of one more character are sent. */
  lemma PrintStep(font: FontTable, s: seq<byte>, start: byte, sent: seq<byte>, i: nat, c: byte, t: seq<PinEvent>)
    requires i < |s|
    requires TextBytes(font, s, start) == sent + TextBytes(font, s[i..], c)
    ensures TextBytes(font, s, start) == (sent + DigitBytes(font, s[i], c)) + TextBytes(font, s[i + 1..], c + 1)
    ensures t + Frames(sent) + Frames(DigitBytes(font, s[i], c)) == t + Frames(sent + DigitBytes(font, s[i], c))
  {
    TextBytesStep(font, s, i, c);
    AppendFrames(t, sent, DigitBytes(font, s[i], c));
  }

  /** The cursor after `k` increments of a `uint8_t` starting at `c`. */
  function Advance(c: byte, k: nat): byte
  {
    if k == 0 then c else Advance(c, k - 1) + 1
  }

  lemma IncrementWraps(p: byte)
    ensures (p + 1) as int == (p as int + 1) % 256
  {
    if p == 255 { } else { }
  }

  lemma ModSucc(x: int)
    ensures (x % 256 + 1) % 256 == (x + 1) % 256
  {
    assert x == 256 * (x / 256) + x % 256;
  }

  /** `k` increments of the cursor count modulo 256. */
  lemma {:induction false} AdvanceWraps(c: byte, k: nat)
    ensures Advance(c, k) as int == (c as int + k) % 256
  {
    if k > 0 {
      AdvanceWraps(c, k - 1);
      IncrementWraps(Advance(c, k - 1));
      ModSucc(c as int + k - 1);
    }
  }

  lemma {:induction false} AdvanceStep(c: byte, k: nat)
    ensures Advance(c + 1, k) == Advance(c, k + 1)
  {
    if k > 0 {
      AdvanceStep(c, k - 1);
    }
  }

  /**
   * Character `k` of the text is sent as the eight bytes of `digit` at cursor
   * `c + k` (mod 256), so it is drawn at that digit, or at digit 0 when the
   * cursor is past 7.
   */
  lemma TextLayout(font: FontTable, s: seq<byte>, c: byte, k: nat)
    requires k < |s|
    ensures TextBytes(font, s, c)[8 * k .. 8 * k + 8] == DigitBytes(font, s[k], Advance(c, k))
    ensures DecodeCommand(TextBytes(font, s, c)[8 * k]) == SelectDigit(ClampCursor(Advance(c, k)))
    ensures Advance(c, k) as int == (c as int + k) % 256
  {
    TextSlice(font, s, c, k);
    var bs := TextBytes(font, s, c);
    assert bs[8 * k] == bs[8 * k .. 8 * k + 8][0];
    DigitDecodes(font, s[k], Advance(c, k));
    AdvanceWraps(c, k);
  }

  lemma {:induction false} TextSlice(font: FontTable, s: seq<byte>, c: byte, k: nat)
    requires k < |s|
    ensures TextBytes(font, s, c)[8 * k .. 8 * k + 8] == DigitBytes(font, s[k], Advance(c, k))
  {
    var bs := TextBytes(font, s, c);
    var first, rest := DigitBytes(font, s[0], c), TextBytes(font, s[1..], c + 1);
    assert bs == first + rest;
    if k == 0 {
      PrefixOfConcat(first, rest);
    } else {
      TextSlice(font, s[1..], c + 1, k - 1);
      AdvanceStep(c, k - 1);
      SliceOfConcat(first, rest, 8 * k, 8 * k + 8);
    }
  }

  /** `print` puts character `k` (for `k` < 8) at digit `k`; later characters land on digit 0 until the cursor wraps at 256. */
  lemma PrintPositions(font: FontTable, s: seq<byte>, k: nat)
    requires k < |s|
    ensures DecodeCommand(TextBytes(font, s, 0)[8 * k]) == SelectDigit(ClampCursor(Advance(0, k)))
    ensures Advance(0, k) as int == k % 256
    ensures k < 8 ==> DecodeCommand(TextBytes(font, s, 0)[8 * k]).position as int == k
    ensures 8 <= k < 256 ==> DecodeCommand(TextBytes(font, s, 0)[8 * k]) == SelectDigit(0)
  {
    TextLayout(font, s, 0, k);
  }

  /** The pin effects of `begin()`: LOAD high, then a low/high pulse on RESET. */
  const ResetSequence: seq<PinEvent> := [Write(Load, true), Write(Reset, false), Write(Reset, true)]

  /** From an idle receiver, the reset sequence is taken in as one chip reset. */
  lemma ResetSequenceResets(t: seq<PinEvent>)
    requires !Run(PowerOn, t).rx.loading
    ensures !Run(PowerOn, t + ResetSequence).rx.loading
    ensures Run(PowerOn, t + ResetSequence).out == Run(PowerOn, t).out + [ChipReset]
  {
    var r := Run(PowerOn, t).rx;
    var p := ResetSequence;
    RunAppend(PowerOn, t, p);
    assert p[..1][..0] == [];
    assert p[..2][..1] == p[..1];
    assert p[..3] == p;
    assert Run(r, p[..1]) == Reception(Receiver(false, r.level, []), []);
    assert Run(r, p[..2]) == Reception(Receiver(false, r.level, []), [ChipReset]);
  }

  /** The pin effects of the constructor: the four lines configured as outputs. */
  const PinSetup: seq<PinEvent> := [Output(Load), Output(Data), Output(Clock), Output(Reset)]

  /** Configuring the lines leaves the receiver idle, having taken nothing in. */
  lemma PinSetupIsQuiet()
    ensures Run(PowerOn, PinSetup) == Reception(PowerOn, [])
  {
    var p := PinSetup;
    assert p[..1][..0] == [];
    assert p[..2][..1] == p[..1];
    assert p[..3][..2] == p[..2];
    assert p[..4] == p && p[..4][..3] == p[..3];
    assert Run(PowerOn, p[..1]) == Reception(PowerOn, []);
    assert Run(PowerOn, p[..2]) == Reception(PowerOn, []);
    assert Run(PowerOn, p[..3]) == Reception(PowerOn, []);
  }

  /** The display, wired to four pins; `trace` records every pin effect of the driver in order. */
  class Display {
    const pinLoad: byte
    const pinData: byte
    const pinClock: byte
    const pinReset: byte
    const font: FontTable
    var trace: seq<PinEvent>

    /** The constructor configures the four lines as outputs. */
    constructor (pinLoad: byte, pinData: byte, pinClock: byte, pinReset: byte, font: FontTable)
      ensures this.pinLoad == pinLoad && this.pinData == pinData
      ensures this.pinClock == pinClock && this.pinReset == pinReset && this.font == font
      ensures trace == PinSetup
    {
      this.pinLoad, this.pinData, this.pinClock, this.pinReset := pinLoad, pinData, pinClock, pinReset;
      this.font := font;
      trace := [Output(Load), Output(Data), Output(Clock), Output(Reset)];
    }

    method Begin()
      modifies this
      ensures trace == old(trace) + ResetSequence
    {
      trace := trace + [Write(Load, true)];
      trace := trace + [Write(Reset, false)];
      trace := trace + [Write(Reset, true)];
    }

    /** `clear()` has exactly the pin effects of `begin()`. */
    method Clear()
      modifies this
      ensures trace == old(trace) + ResetSequence
    {
      Begin();
    }

    /** `sendByte(byte)`: LOAD low, bits 0 to 7 each with a clock pulse, LOAD high. */
    method SendByte(b: byte)
      modifies this
      ensures trace == old(trace) + Frame(b)
    {
      trace := trace + [Write(Load, false)];
      var x := 0;
      while x <= 7
        invariant 0 <= x <= 8
        invariant trace == old(trace) + [Write(Load, false)] + Pulses(b, x)
      {
        PulsesSnoc(b, x);
        if (b >> x) & 1 == 1 {
          trace := trace + [Write(Data, true)];
        } else {
          trace := trace + [Write(Data, false)];
        }
        trace := trace + [Write(Clock, true)];
        trace := trace + [Write(Clock, false)];
        x := x + 1;
      }
      trace := trace + [Write(Load, true)];
    }

    method Brightness(val: byte)
      modifies this
      ensures trace == old(trace) + Frame(BrightnessCommand(val))
    {
      SendByte(0xE0 | (val & 7));
    }

    /** `setCyrsor(cursor)` in the source. */
    method SetCursor(cursor: byte)
      modifies this
      ensures trace == old(trace) + Frame(CursorCommand(cursor))
    {
      var c := cursor;
      if c > 7 {
        c := 0;
      }
      SendByte(0xA0 | c);
    }

    method Digit(sign: byte, digit: byte)
      modifies this
      ensures trace == old(trace) + Frames(DigitBytes(font, sign, digit))
    {
      var s, d := sign, digit;
      if s < 0x20 || s > 0x7F {
        s := 0x20;
      }
      if d > 7 {
        d := 0;
      }
      assert s == Printable(sign) && d == ClampCursor(digit);
      SetCursor(d);
      ghost var rows := GlyphRows(font, s);
      FirstFrame(old(trace), CursorCommand(d), rows);
      var i := 0;
      while i < 7
        invariant 0 <= i <= 7
        invariant trace == old(trace) + Frames([CursorCommand(d)] + rows[..i])
      {
        var row := GlyphRow(font, s, i);
        SendByte(row);
        AppendFrameTake(old(trace), [CursorCommand(d)], rows, i);
        i := i + 1;
      }
      assert rows[..7] == rows;
    }

    method Print(text: seq<byte>)
      modifies this
      ensures trace == old(trace) + Frames(TextBytes(font, CString(text), 0))
    {
      var cursor: byte := 0;
      var i := 0;
      ghost var s := CString(text);
      ghost var sent: seq<byte> := [];
      assert old(trace) + Frames(sent) == old(trace);
      while i < |text| && text[i] != 0
        invariant 0 <= i <= |s|
        invariant TextBytes(font, s, 0) == sent + TextBytes(font, s[i..], cursor)
        invariant trace == old(trace) + Frames(sent)
      {
        assert i < |s| && s[i] == text[i];
        PrintStep(font, s, 0, sent, i, cursor, old(trace));
        Digit(text[i], cursor);
        sent := sent + DigitBytes(font, text[i], cursor);
        cursor := cursor + 1;
        i := i + 1;
      }
      assert s[i..] == [];
      assert sent + [] == sent;
    }

    method PrintAt(text: seq<byte>, cursor: byte)
      modifies this
      ensures trace == old(trace) + Frames(TextBytes(font, CString(text), ClampCursor(cursor)))
    {
      var c := cursor;
      if c > 7 {
        c := 0;
      }
      var i := 0;
      ghost var s := CString(text);
      ghost var sent: seq<byte> := [];
      assert old(trace) + Frames(sent) == old(trace);
      while i < |text| && text[i] != 0
        invariant 0 <= i <= |s|
        invariant TextBytes(font, s, ClampCursor(cursor)) == sent + TextBytes(font, s[i..], c)
        invariant trace == old(trace) + Frames(sent)
      {
        assert i < |s| && s[i] == text[i];
        PrintStep(font, s, ClampCursor(cursor), sent, i, c, old(trace));
        Digit(text[i], c);
        sent := sent + DigitBytes(font, text[i], c);
        c := c + 1;
        i := i + 1;
      }
      assert s[i..] == [];
      assert sent + [] == sent;
    }
  }
}
