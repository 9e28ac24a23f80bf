/**
 * The serial wire protocol of the SDA5708 dot-matrix display as the driver in
 * lib/SDA5708/SDA5708.h drives it: LOAD is pulled low, the eight bits of a byte
 * are put on DATA least significant bit first, each followed by a high/low
 * pulse on SDCLK, and LOAD is raised again.
 *
 * Pin effects are recorded as a trace of events, one per `pinMode` or
 * `digitalWrite` call, naming the line by its role. A reference receiver
 * (`Step`, `Run`) reads such a trace the way the display does: it shifts in
 * the DATA level on every rising clock edge while LOAD is low and latches the
 * assembled byte when LOAD rises after exactly eight bits. The lemmas show that
 * the framing the driver emits is received as exactly the bytes it was given.
 */
module Sda5708Wire {
  import opened SeqFacts

  type byte = bv8

  /** The four lines the driver owns. */
  datatype Line = Load | Data | Clock | Reset

  /** One pin effect: configuring a line as an output, or driving it high or low. */
  datatype PinEvent = Output(line: Line) | Write(line: Line, high: bool)

  /** Bit `x` of `b`, tested as the driver tests it: `(b >> x) & 1`. */
  function Bit(b: byte, x: nat): bool
    requires x < 8
  {
    (b >> x) & 1 == 1
  }

  /** The eight data bits of `b`, least significant first. */
  function Bits(b: byte): (bits: seq<bool>)
    ensures |bits| == 8
  {
    seq(8, x requires 0 <= x < 8 => Bit(b, x))
  }

  function BitValue(v: bool): byte { if v then 1 else 0 }

  /** Reassembles bits received least significant first into a byte. */
  function Assemble(bits: seq<bool>): byte
  {
    if bits == [] then 0 else BitValue(bits[0]) | (Assemble(bits[1..]) << 1)
  }

  lemma AssembleAt(s: seq<bool>, k: nat)
    requires k < |s|
    ensures Assemble(s[k..]) == BitValue(s[k]) | (Assemble(s[k + 1..]) << 1)
  {
    assert s[k..][1..] == s[k + 1..];
  }

  /** Reassembling the eight bits sent for a byte gives back that byte. */
  lemma {:induction false} AssembleBits(b: byte)
    ensures Assemble(Bits(b)) == b
  {
    var s := Bits(b);
    assert s[8..] == [];
    AssembleAt(s, 7); AssembleAt(s, 6); AssembleAt(s, 5); AssembleAt(s, 4);
    AssembleAt(s, 3); AssembleAt(s, 2); AssembleAt(s, 1); AssembleAt(s, 0);
    assert s[0..] == s;
  }

  /** One data bit: the DATA level, then SDCLK high and low. */
  function Pulse(v: bool): seq<PinEvent>
  {
    [Write(Data, v), Write(Clock, true), Write(Clock, false)]
  }

  /** Event `k` of the bit pulses for `b`: the DATA level of bit `k / 3`, then SDCLK high, then SDCLK low. */
  function PulseEvent(b: byte, k: nat): PinEvent
    requires k < 24
  {
    if k % 3 == 0 then Write(Data, Bit(b, k / 3)) else Write(Clock, k % 3 == 1)
  }

  /** The pulses for bits `0 .. n-1` of `b`, in the order the driver's loop sends them. */
  function Pulses(b: byte, n: nat): (t: seq<PinEvent>)
    requires n <= 8
    ensures |t| == 3 * n
  {
    seq(3 * n, k requires 0 <= k < 3 * n => PulseEvent(b, k))
  }

  /** One more loop round adds the pulse of the next bit. */
  lemma PulsesSnoc(b: byte, n: nat)
    requires n < 8
    ensures Pulses(b, n + 1) == Pulses(b, n) + Pulse(Bit(b, n))
  {
    var p, q := Pulses(b, n + 1), Pulses(b, n) + Pulse(Bit(b, n));
    forall k | 0 <= k < 3 * n + 3
      ensures p[k] == q[k]
    {
      if k >= 3 * n {
        assert k / 3 == n;
      }
    }
  }

  /** The pin effects of sending one byte: LOAD low, eight bit pulses, LOAD high. */
  function Frame(b: byte): (t: seq<PinEvent>)
    ensures |t| == 26
  {
    [Write(Load, false)] + Pulses(b, 8) + [Write(Load, true)]
  }

  /** The pin effects of sending the bytes `bs` one after another. */
  function Frames(bs: seq<byte>): (t: seq<PinEvent>)
    ensures |t| == 26 * |bs|
  {
    if bs == [] then [] else Frames(bs[..|bs| - 1]) + Frame(bs[|bs| - 1])
  }

  lemma {:induction false} FramesAppend(a: seq<byte>, b: seq<byte>)
    ensures Frames(a + b) == Frames(a) + Frames(b)
    decreases |b|
  {
    if b == [] {
      assert a + b == a;
    } else {
      var b' := b[..|b| - 1];
      assert (a + b)[..|a + b| - 1] == a + b';
      FramesAppend(a, b');
    }
  }

  lemma FramesSnoc(a: seq<byte>, b: byte)
    ensures Frames(a + [b]) == Frames(a) + Frame(b)
  {
    assert (a + [b])[..|a|] == a;
  }

  /** Sending one more byte after the frames of `sent` extends the trace by that byte's frame. */
  lemma AppendFrame(t: seq<PinEvent>, sent: seq<byte>, b: byte)
    ensures t + Frames(sent) + Frame(b) == t + Frames(sent + [b])
  {
    FramesSnoc(sent, b);
  }

  /** Sending more bytes after the frames of `sent` extends the trace by their frames. */
  lemma AppendFrames(t: seq<PinEvent>, sent: seq<byte>, bs: seq<byte>)
    ensures t + Frames(sent) + Frames(bs) == t + Frames(sent + bs)
  {
    FramesAppend(sent, bs);
  }

  /** What the display's input stage remembers between pin events. */
  datatype Receiver = Receiver(loading: bool, level: bool, bits: seq<bool>)

  /** What the display takes in: a latched byte, or a hardware reset. */
  datatype Signal = Latched(value: byte) | ChipReset

  datatype Reception = Reception(rx: Receiver, out: seq<Signal>)

  const PowerOn := Receiver(false, false, [])

  /** The receiver's reaction to one pin event. */
  function Step(r: Receiver, e: PinEvent): Reception
  {
    match e
    case Output(_) => Reception(r, [])
    case Write(Load, high) =>
      if !high then Reception(Receiver(true, r.level, []), [])
      else Reception(Receiver(false, r.level, []),
                     if r.loading && |r.bits| == 8 then [Latched(Assemble(r.bits))] else [])
    case Write(Data, high) => Reception(r.(level := high), [])
    case Write(Clock, high) =>
      Reception(if high && r.loading then r.(bits := r.bits + [r.level]) else r, [])
    case Write(Reset, high) =>
      if high then Reception(r, []) else Reception(Receiver(false, r.level, []), [ChipReset])
  }

  /** Sending element `i` of `xs` after the frames of `head + xs[..i]` extends the trace to the frames of `head + xs[..i + 1]`. */
  lemma AppendFrameTake(t: seq<PinEvent>, head: seq<byte>, xs: seq<byte>, i: nat)
    requires i < |xs|
    ensures t + Frames(head + xs[..i]) + Frame(xs[i]) == t + Frames(head + xs[..i + 1])
  {
    TakeSnoc(xs, i);
    ConcatAssoc(head, xs[..i], [xs[i]]);
    AppendFrame(t, head + xs[..i], xs[i]);
  }

  /** The frame of a first byte `x` is the frames of `[x]` followed by no element of `xs`. */
  lemma FirstFrame(t: seq<PinEvent>, x: byte, xs: seq<byte>)
    ensures t + Frame(x) == t + Frames([x] + xs[..0])
  {
    assert [x] + xs[..0] == [x];
    assert [x][..0] == [];
    assert Frames([x]) == Frames([]) + Frame(x);
  }

  /** The receiver's state and everything it took in after the trace `t`, starting from `r`. */
  function Run(r: Receiver, t: seq<PinEvent>): Reception
  {
    if t == [] then Reception(r, [])
    else
      var before := Run(r, t[..|t| - 1]);
      var last := Step(before.rx, t[|t| - 1]);
      Reception(last.rx, before.out + last.out)
  }

  /** Running a trace with one more event is one more step. */
  lemma RunSnoc(r: Receiver, t: seq<PinEvent>, e: PinEvent)
    ensures Run(r, t + [e]).rx == Step(Run(r, t).rx, e).rx
    ensures Run(r, t + [e]).out == Run(r, t).out + Step(Run(r, t).rx, e).out
  {
    assert (t + [e])[..|t|] == t;
  }

  lemma {:induction false} RunAppendRx(r: Receiver, a: seq<PinEvent>, b: seq<PinEvent>)
    ensures Run(r, a + b).rx == Run(Run(r, a).rx, b).rx
    decreases |b|
  {
    if b == [] {
      assert a + b == a;
    } else {
      var b', e := b[..|b| - 1], b[|b| - 1];
      RunAppendRx(r, a, b');
      SnocSplit(a, b);
      RunSnoc(r, a + b', e);
      RunSnoc(Run(r, a).rx, b', e);
    }
  }

  lemma {:induction false} RunAppendOut(r: Receiver, a: seq<PinEvent>, b: seq<PinEvent>)
    ensures Run(r, a + b).out == Run(r, a).out + Run(Run(r, a).rx, b).out
    decreases |b|
  {
    if b == [] {
      assert a + b == a;
    } else {
      var b', e := b[..|b| - 1], b[|b| - 1];
      var mid := Run(r, a).rx;
      RunAppendOut(r, a, b');
      RunAppendRx(r, a, b');
      SnocSplit(a, b);
      RunSnoc(r, a + b', e);
      RunSnoc(mid, b', e);
      var x, y, z := Run(r, a).out, Run(mid, b').out, Step(Run(mid, b').rx, e).out;
      ConcatAssoc(x, y, z);
    }
  }

  /** Running a trace in two pieces is running the second from where the first stopped. */
  lemma RunAppend(r: Receiver, a: seq<PinEvent>, b: seq<PinEvent>)
    ensures Run(r, a + b).rx == Run(Run(r, a).rx, b).rx
    ensures Run(r, a + b).out == Run(r, a).out + Run(Run(r, a).rx, b).out
  {
    RunAppendRx(r, a, b);
    RunAppendOut(r, a, b);
  }

  /** While LOAD is low, the pulses for the first `n` bits shift exactly those bits in. */
  lemma {:induction false} PulsesShiftIn(level: bool, b: byte, n: nat)
    requires n <= 8
    ensures Run(Receiver(true, level, []), Pulses(b, n)).rx.loading
    ensures Run(Receiver(true, level, []), Pulses(b, n)).rx.bits == Bits(b)[..n]
    ensures Run(Receiver(true, level, []), Pulses(b, n)).out == []
  {
    var r := Receiver(true, level, []);
    if n > 0 {
      var before, pulse := Pulses(b, n - 1), Pulse(Bit(b, n - 1));
      PulsesShiftIn(level, b, n - 1);
      PulsesSnoc(b, n - 1);
      RunAppend(r, before, pulse);
      PulseShiftsIn(Run(r, before).rx, Bit(b, n - 1));
      TakeSnoc(Bits(b), n - 1);
    }
  }

  /** While LOAD is low, one bit pulse shifts its DATA level in. */
  lemma PulseShiftsIn(r: Receiver, v: bool)
    requires r.loading
    ensures Run(r, Pulse(v)) == Reception(r.(level := v, bits := r.bits + [v]), [])
  {
    var p := Pulse(v);
    assert p[..1][..0] == [];
    assert p[..2][..1] == p[..1];
    assert p[..2] == p[..1] + [p[1]];
    assert p[..3] == p;
    assert Run(r, p[..1]) == Reception(r.(level := v), []);
    assert Run(r, p[..2]) == Reception(r.(level := v, bits := r.bits + [v]), []);
  }

  /** Whatever state the receiver is in, the frame of a byte is taken in as exactly that byte. */
  lemma {:induction false} FrameLatches(r: Receiver, b: byte)
    ensures Run(r, Frame(b)).out == [Latched(b)]
    ensures !Run(r, Frame(b)).rx.loading
  {
    var head := [Write(Load, false)];
    var t := head + Pulses(b, 8);
    assert Run(r, head).rx == Receiver(true, r.level, []) && Run(r, head).out == [] by {
      assert head[..0] == [];
    }
    RunAppend(r, head, Pulses(b, 8));
    PulsesShiftIn(r.level, b, 8);
    assert Bits(b)[..8] == Bits(b);
    AssembleBits(b);
    assert Frame(b) == t + [Write(Load, true)];
    assert (t + [Write(Load, true)])[..|t|] == t;
  }

  /** The signals a display takes in for the bytes `bs`. */
  function Latch(bs: seq<byte>): (s: seq<Signal>)
    ensures |s| == |bs|
    ensures forall i :: 0 <= i < |bs| ==> s[i] == Latched(bs[i])
  {
    seq(|bs|, i requires 0 <= i < |bs| => Latched(bs[i]))
  }

  /** Whatever state the receiver is in, the frames of `bs` are taken in as exactly `bs`. */
  lemma {:induction false} FramesLatch(r: Receiver, bs: seq<byte>)
    ensures Run(r, Frames(bs)).out == Latch(bs)
    ensures bs != [] || !r.loading ==> !Run(r, Frames(bs)).rx.loading
    decreases |bs|
  {
    if bs != [] {
      var bs' := bs[..|bs| - 1];
      FramesLatch(r, bs');
      RunAppend(r, Frames(bs'), Frame(bs[|bs| - 1]));
      FrameLatches(Run(r, Frames(bs')).rx, bs[|bs| - 1]);
      assert Latch(bs) == Latch(bs') + [Latched(bs[|bs| - 1])];
    }
  }

  /** Appending the frames of `bs` to any trace adds exactly `bs` to what the receiver took in, and leaves it idle. */
  lemma SendFrames(t: seq<PinEvent>, bs: seq<byte>)
    ensures bs != [] || !Run(PowerOn, t).rx.loading ==> !Run(PowerOn, t + Frames(bs)).rx.loading
    ensures Run(PowerOn, t + Frames(bs)).out == Run(PowerOn, t).out + Latch(bs)
  {
    RunAppend(PowerOn, t, Frames(bs));
    FramesLatch(Run(PowerOn, t).rx, bs);
  }
}
