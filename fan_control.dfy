/**
 * The fan controller of src/main.cpp: sampling the temperature probes, the
 * control law that turns the hottest reading into a PWM duty cycle and a
 * percentage, and the eight-cell speed bar drawn on the SDA5708 display.
 *
 * Temperatures are integers in hundredths of a degree Celsius.
 */
module FanControl {
  import opened SeqFacts
  import opened Arduino
  import opened Sda5708Wire
  import opened Sda5708

  /** `MAX_SENSORS_COUNT`: at most this many probes are sampled. */
  const MaxSensors := 2
  /** The value stored for a probe that does not answer: -127.00 degrees. */
  const Sentinel := -12700
  /** `PWM_MIN_DUTY_CYCLE` and `PWM_MAX_DUTY_CYCLE`. */
  const MinDuty := 25
  const MaxDuty := 255
  /** The initial `tempThreshold` (33.0 degrees) and `tempHysteresis` (5 degrees). */
  const DefaultThreshold := 3300
  const DefaultHysteresis := 500
  /** A lit cell of the speed bar: `0b11111111 / 8`, all five pixels of a row. */
  const LitCell: byte := 0xFF / 8

  /** What probe `t` reports when it is sampled: not connected, or a reading. */
  datatype Probe = Unplugged | Reading(centi: int)

  /** The two things the control law decides: the PWM duty cycle and the percentage shown. */
  datatype FanOutput = FanOutput(duty: int, percent: int)

  /** The number of probes `readTemperatures` visits. */
  function Visited(sensorsCount: nat): (n: nat)
    ensures n <= MaxSensors && n <= sensorsCount
    ensures n == MaxSensors || n == sensorsCount
  {
    if sensorsCount < MaxSensors then sensorsCount else MaxSensors
  }

  /** The value `readTemperatures` stores for one probe. */
  function StoredValue(p: Probe): int
  {
    match p
    case Unplugged => Sentinel
    case Reading(c) => c
  }

  function StoredValues(ps: seq<Probe>): (vs: seq<int>)
    ensures |vs| == |ps|
    ensures forall i :: 0 <= i < |ps| ==> vs[i] == StoredValue(ps[i])
  {
    seq(|ps|, i requires 0 <= i < |ps| => StoredValue(ps[i]))
  }

  /** The readings of the connected probes, in order. */
  function Readings(ps: seq<Probe>): (rs: seq<int>)
    ensures |rs| <= |ps|
  {
    if ps == [] then []
    else
      var rest := Readings(ps[..|ps| - 1]);
      match ps[|ps| - 1]
      case Unplugged => rest
      case Reading(c) => rest + [c]
  }

  /**
   * `tempErrorIdx`: one more than the index of the last probe that is not
   * connected, or 0 when every probe answers.
   */
  function ErrorIndex(ps: seq<Probe>): (e: nat)
    ensures e <= |ps|
    ensures e == 0 <==> forall i :: 0 <= i < |ps| ==> ps[i].Reading?
    ensures e > 0 ==> ps[e - 1].Unplugged?
    ensures forall j :: e <= j < |ps| ==> ps[j].Reading?
  {
    if ps == [] then 0
    else if ps[|ps| - 1].Unplugged? then |ps|
    else ErrorIndex(ps[..|ps| - 1])
  }

  /**
   * `currentMainTemp` after sampling: the largest of the sentinel and the
   * values stored, kept by a running maximum.
   */
  function MainTemp(vs: seq<int>): (m: int)
    ensures m >= Sentinel
    ensures forall i :: 0 <= i < |vs| ==> vs[i] <= m
    ensures m == Sentinel || m in vs
  {
    if vs == [] then Sentinel
    else
      var m := MainTemp(vs[..|vs| - 1]);
      if vs[|vs| - 1] > m then vs[|vs| - 1] else m
  }

  /** A probe that does not answer never raises the main temperature: it is the hottest connected reading, or the sentinel. */
  lemma {:induction false} AggregateIgnoresUnplugged(ps: seq<Probe>)
    ensures MainTemp(StoredValues(ps)) == MainTemp(Readings(ps))
  {
    if ps != [] {
      var front := ps[..|ps| - 1];
      AggregateIgnoresUnplugged(front);
      var vs := StoredValues(ps);
      assert vs[..|vs| - 1] == StoredValues(front);
      var rest := Readings(front);
      match ps[|ps| - 1]
      case Unplugged =>
      case Reading(c) =>
        assert (rest + [c])[..|rest|] == rest;
    }
  }

  /**
   * The duty cycle inside and above the band: `map` from 25 at
   * `threshold - hysteresis` to 255 at `threshold`, clamped at 255 by `min`.
   */
  function BandDuty(temp: int, threshold: int, hysteresis: int): (d: int)
    requires hysteresis > 0 && temp >= threshold - hysteresis
    ensures MinDuty <= d <= MaxDuty
    ensures temp >= threshold ==> d == MaxDuty
  {
    MapInRange(temp, threshold - hysteresis, threshold, MinDuty, MaxDuty);
    Min(Map(temp, threshold - hysteresis, threshold, MinDuty, MaxDuty), MaxDuty)
  }

  /** The percentage shown for a duty cycle of the band: 25 .. 255 rescaled to 0 .. 100. */
  function DutyPercent(d: int): (p: int)
    requires MinDuty <= d <= MaxDuty
    ensures 0 <= p <= 100
    ensures d == MinDuty ==> p == 0
    ensures d == MaxDuty ==> p == 100
  {
    PercentRange(d);
    PercentEnds(d);
    Map(d, MinDuty, MaxDuty, 0, 100)
  }

  lemma PercentRange(d: int)
    requires MinDuty <= d <= MaxDuty
    ensures 0 <= Map(d, MinDuty, MaxDuty, 0, 100) <= 100
  {
    MapInRange(d, MinDuty, MaxDuty, 0, 100);
  }

  lemma PercentEnds(d: int)
    ensures d == MinDuty ==> Map(d, MinDuty, MaxDuty, 0, 100) == 0
    ensures d == MaxDuty ==> Map(d, MinDuty, MaxDuty, 0, 100) == 100
  {
    if d == MinDuty || d == MaxDuty {
      MapEnds(MinDuty, MaxDuty, 0, 100);
    }
  }

  /**
   * The control law of `adjustFanSpeed`: a failed probe forces full speed;
   * otherwise the duty cycle rises from 25 at `threshold - hysteresis` to 255 at
   * `threshold` and stays there above it. Below the band the fan is off.
   */
  function FanSpeed(temp: int, errorIdx: int, threshold: int, hysteresis: int): (r: FanOutput)
    requires hysteresis > 0
    ensures errorIdx > 0 ==> r == FanOutput(MaxDuty, 100)
    ensures errorIdx <= 0 && temp < threshold - hysteresis ==> r == FanOutput(0, 0)
    ensures errorIdx <= 0 && temp >= threshold - hysteresis ==> MinDuty <= r.duty <= MaxDuty && 0 <= r.percent <= 100
    ensures errorIdx <= 0 && temp >= threshold ==> r == FanOutput(MaxDuty, 100)
    ensures r.duty == 0 <==> errorIdx <= 0 && temp < threshold - hysteresis
  {
    if errorIdx > 0 then
      FanOutput(MaxDuty, 100)
    else if temp >= threshold - hysteresis then
      var d := BandDuty(temp, threshold, hysteresis);
      FanOutput(d, DutyPercent(d))
    else
      FanOutput(0, 0)
  }

  /** With every probe connected, a hotter reading never gets a lower duty cycle or a lower percentage. */
  lemma DutyMonotone(t1: int, t2: int, threshold: int, hysteresis: int)
    requires hysteresis > 0 && t1 <= t2
    ensures FanSpeed(t1, 0, threshold, hysteresis).duty <= FanSpeed(t2, 0, threshold, hysteresis).duty
    ensures FanSpeed(t1, 0, threshold, hysteresis).percent <= FanSpeed(t2, 0, threshold, hysteresis).percent
  {
    if t1 >= threshold - hysteresis {
      MapMonotone(t1, t2, threshold - hysteresis, threshold, MinDuty, MaxDuty);
      var d1, d2 := BandDuty(t1, threshold, hysteresis), BandDuty(t2, threshold, hysteresis);
      MapMonotone(d1, d2, MinDuty, MaxDuty, 0, 100);
    }
  }

  /** At the bottom of the band the fan already runs, at the minimum duty cycle, while the percentage shown is 0. */
  lemma BandFloor(threshold: int, hysteresis: int)
    requires hysteresis > 0
    ensures FanSpeed(threshold - hysteresis, 0, threshold, hysteresis) == FanOutput(MinDuty, 0)
  {
    MapEnds(threshold - hysteresis, threshold, MinDuty, MaxDuty);
  }

  /** With the default band 28.00 .. 33.00: off just below it, 25 and 0 % at its floor, 140 and 50 % halfway, 255 and 100 % above it. */
  lemma DefaultBand()
    ensures FanSpeed(2799, 0, DefaultThreshold, DefaultHysteresis) == FanOutput(0, 0)
    ensures FanSpeed(2800, 0, DefaultThreshold, DefaultHysteresis) == FanOutput(MinDuty, 0)
    ensures FanSpeed(3050, 0, DefaultThreshold, DefaultHysteresis) == FanOutput(140, 50)
    ensures FanSpeed(3500, 0, DefaultThreshold, DefaultHysteresis) == FanOutput(MaxDuty, 100)
  {
    BandFloor(DefaultThreshold, DefaultHysteresis);
    assert TruncDiv(250 * 230, 500) == 115;
    assert TruncDiv(115 * 100, 230) == 50;
  }

  /** `temperatureTrend`: the change in whole tenths of a degree, each side truncated toward zero as `(int)` does. */
  function Trend(current: int, last: int): (trend: int)
    ensures current == last ==> trend == 0
  {
    TruncDiv(current, 10) - TruncDiv(last, 10)
  }

  /** The trend never points the wrong way: warming gives a trend of 0 or more, cooling 0 or less. */
  lemma TrendSign(current: int, last: int)
    ensures current >= last ==> Trend(current, last) >= 0
    ensures current <= last ==> Trend(current, last) <= 0
  {
    if current >= last {
      TruncDivMonotone(last, current, 10);
    } else {
      TruncDivMonotone(current, last, 10);
    }
  }

  /** `bars`: the percentage rescaled to 0 .. 7. */
  function Bars(percent: int): int
  {
    Map(percent, 0, 100, 0, 7)
  }

  /** The eight row bytes of the speed bar: row `i` is lit when `7 - i <= bars`. */
  function BarCells(percent: int): (cells: seq<byte>)
    ensures |cells| == 8
  {
    seq(8, i => if 7 - i <= Bars(percent) then LitCell else 0)
  }

  /** Everything `printSpeedBar` sends: the address of digit 7, then the eight cells. */
  function SpeedBarBytes(percent: int): (bs: seq<byte>)
    ensures |bs| == 9
  {
    [CursorCommand(7)] + BarCells(percent)
  }

  /** The number of lit cells. */
  function LitCount(cells: seq<byte>): (n: nat)
    ensures n <= |cells|
  {
    if cells == [] then 0
    else LitCount(cells[..|cells| - 1]) + (if cells[|cells| - 1] == LitCell then 1 else 0)
  }

  /** A row of cells lit exactly from position `m` onward has `|cells| - m` lit cells. */
  lemma {:induction false} LitSuffix(cells: seq<byte>, m: nat)
    requires m <= |cells|
    requires forall i :: 0 <= i < |cells| ==> (cells[i] == LitCell <==> i >= m)
    ensures LitCount(cells) == |cells| - m
  {
    if cells != [] {
      var front := cells[..|cells| - 1];
      if m == |cells| {
        LitSuffix(front, m - 1 + (if m == 0 then 1 else 0));
      } else {
        LitSuffix(front, m);
      }
    }
  }

  /**
   * For a percentage in 0 .. 100 the bar shows `percent * 7 / 100 + 1` lit cells,
   * filled from the bottom row: cell `i` is lit exactly when `i >= 7 - percent * 7 / 100`.
   * It is sent to digit 7, and every cell is read by the display as a row of pixels.
   */
  lemma SpeedBar(percent: int)
    requires 0 <= percent <= 100
    ensures Bars(percent) == percent * 7 / 100 && 0 <= Bars(percent) <= 7
    ensures forall i :: 0 <= i < 8 ==> (BarCells(percent)[i] == LitCell <==> i >= 7 - Bars(percent))
    ensures LitCount(BarCells(percent)) == Bars(percent) + 1
    ensures DecodeCommand(SpeedBarBytes(percent)[0]) == SelectDigit(7)
    ensures forall i :: 1 <= i < 9 ==> DecodeCommand(SpeedBarBytes(percent)[i]) == RowPixels(SpeedBarBytes(percent)[i])
  {
    TruncDivNonNegative(percent * 7, 100);
    MapInRange(percent, 0, 100, 0, 7);
    var cells := BarCells(percent);
    LitSuffix(cells, 7 - Bars(percent));
    forall i | 1 <= i < 9
      ensures DecodeCommand(SpeedBarBytes(percent)[i]) == RowPixels(SpeedBarBytes(percent)[i])
    {
      RowDecodes(SpeedBarBytes(percent)[i]);
    }
  }

  /** The controller's globals; `display` is the SDA5708 it draws on. */
  class Controller {
    /** `sensorsCount`, found once at start-up. */
    const sensorsCount: nat
    const threshold: int
    const hysteresis: int
    /** `temperatures[MAX_SENSORS_COUNT]`. */
    const temperatures: array<int>
    const display: Display
    var currentMainTemp: int
    var lastMainTemp: int
    var tempErrorIdx: nat
    var temperatureTrend: int
    /** The duty cycle last written to the fan's PWM pin. */
    var pwmDuty: int

    ghost predicate Valid()
    {
      temperatures.Length == MaxSensors && hysteresis > 0
    }

    /** The globals start at zero. */
    constructor (sensorsCount: nat, threshold: int, hysteresis: int, display: Display)
      requires hysteresis > 0
      ensures Valid() && fresh(temperatures)
      ensures this.sensorsCount == sensorsCount && this.threshold == threshold && this.hysteresis == hysteresis
      ensures this.display == display
      ensures temperatures[..] == [0, 0]
      ensures currentMainTemp == 0 && lastMainTemp == 0 && tempErrorIdx == 0 && temperatureTrend == 0 && pwmDuty == 0
    {
      this.sensorsCount, this.threshold, this.hysteresis := sensorsCount, threshold, hysteresis;
      this.display := display;
      temperatures := new int[MaxSensors](_ => 0);
      currentMainTemp, lastMainTemp, tempErrorIdx, temperatureTrend, pwmDuty := 0, 0, 0, 0, 0;
    }

    /**
     * `readTemperatures()`: `probe[t]` is what sensor `t` reports. The first
     * `Visited(sensorsCount)` slots take the stored values, the others keep theirs.
     */
    method ReadTemperatures(probe: seq<Probe>)
      requires Valid() && |probe| >= Visited(sensorsCount)
      modifies this`currentMainTemp, this`tempErrorIdx, temperatures
      ensures Valid()
      ensures temperatures[..Visited(sensorsCount)] == StoredValues(probe[..Visited(sensorsCount)])
      ensures temperatures[Visited(sensorsCount)..] == old(temperatures[Visited(sensorsCount)..])
      ensures tempErrorIdx == ErrorIndex(probe[..Visited(sensorsCount)])
      ensures currentMainTemp == MainTemp(temperatures[..Visited(sensorsCount)])
    {
      tempErrorIdx := 0;
      currentMainTemp := Sentinel;
      var n := if sensorsCount < MaxSensors then sensorsCount else MaxSensors;
      var t := 0;
      while t < n
        invariant 0 <= t <= n == Visited(sensorsCount)
        invariant temperatures[..t] == StoredValues(probe[..t])
        invariant temperatures[t..] == old(temperatures[t..])
        invariant tempErrorIdx == ErrorIndex(probe[..t])
        invariant currentMainTemp == MainTemp(temperatures[..t])
      {
        if probe[t].Unplugged? {
          tempErrorIdx := t + 1;
          temperatures[t] := Sentinel;
        } else {
          temperatures[t] := probe[t].centi;
        }
        if temperatures[t] > currentMainTemp {
          currentMainTemp := temperatures[t];
        }
        assert probe[..t + 1][..t] == probe[..t];
        assert temperatures[..t + 1][..t] == temperatures[..t];
        t := t + 1;
      }
    }

    /**
     * `adjustFanSpeed()`: updates the trend and `lastMainTemp`, writes the duty
     * cycle of the control law to the fan and draws the percentage as the speed bar.
     */
    method AdjustFanSpeed()
      requires Valid()
      modifies this, display
      ensures Valid()
      ensures temperatureTrend == Trend(old(currentMainTemp), old(lastMainTemp))
      ensures lastMainTemp == old(currentMainTemp) && currentMainTemp == old(currentMainTemp)
      ensures tempErrorIdx == old(tempErrorIdx)
      ensures pwmDuty == FanSpeed(currentMainTemp, tempErrorIdx, threshold, hysteresis).duty
      ensures display.trace == old(display.trace) + Frames(SpeedBarBytes(FanSpeed(currentMainTemp, tempErrorIdx, threshold, hysteresis).percent))
    {
      temperatureTrend := TruncDiv(currentMainTemp, 10) - TruncDiv(lastMainTemp, 10);
      lastMainTemp := currentMainTemp;
      var percent := 0;
      var dutyCycle := 0;
      if tempErrorIdx > 0 {
        dutyCycle := MaxDuty;
        percent := 100;
      } else if currentMainTemp >= threshold - hysteresis {
        dutyCycle := BandDuty(currentMainTemp, threshold, hysteresis);
        percent := DutyPercent(dutyCycle);
      }
      pwmDuty := dutyCycle;
      PrintSpeedBar(percent);
    }

    /** `printSpeedBar(percent)`: digit 7, then the eight cells from the top row down. */
    method PrintSpeedBar(percent: int)
      modifies display
      ensures display.trace == old(display.trace) + Frames(SpeedBarBytes(percent))
    {
      display.SetCursor(7);
      var bars := Bars(percent);
      ghost var cells := BarCells(percent);
      FirstFrame(old(display.trace), CursorCommand(7), cells);
      var i := 0;
      while i <= 7
        invariant 0 <= i <= 8
        invariant display.trace == old(display.trace) + Frames([CursorCommand(7)] + cells[..i])
      {
        var cell: byte;
        if 7 - i <= bars {
          cell := 0xFF / 8;
        } else {
          cell := 0x00 / 8;
        }
        assert cell == cells[i];
        display.SendByte(cell);
        AppendFrameTake(old(display.trace), [CursorCommand(7)], cells, i);
        i := i + 1;
      }
      assert cells[..8] == cells;
    }
  }
}
