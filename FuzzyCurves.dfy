/**
 * The arithmetic of the fuzzy time-of-day diagram (`FuzzyLogicCurves`) and of
 * the bar heights in `FeatureSelectionChart`.  Numbers are reals; the Gaussian
 * membership function is a parameter whose values lie in [0, 1].
 */
module FuzzyCurves {
  import opened Decimal

  datatype Label = LateNight | Morning | Afternoon | Evening | Night | NoLabel

  function LabelText(l: Label): string {
    match l
    case LateNight => "Late Night"
    case Morning => "Morning"
    case Afternoon => "Afternoon"
    case Evening => "Evening"
    case Night => "Night"
    case NoLabel => ""
  }

  /** `getFuzzyLabel`, branch for branch, including its final `""` fallback. */
  function FuzzyLabel(t: real): Label {
    if t < 5.0 then LateNight
    else if t >= 5.0 && t < 11.0 then Morning
    else if t >= 11.0 && t < 16.0 then Afternoon
    else if t >= 16.0 && t < 19.0 then Evening
    else if t >= 19.0 then Night
    else NoLabel
  }

  /** Position of a label along the day. */
  function Rank(l: Label): nat {
    match l
    case LateNight => 0
    case Morning => 1
    case Afternoon => 2
    case Evening => 3
    case Night => 4
    case NoLabel => 5
  }

  /** The labels partition the time axis into left-closed intervals; the `""` branch is never taken. */
  lemma LabelPartition(t: real)
    ensures FuzzyLabel(t) != NoLabel && LabelText(FuzzyLabel(t)) != ""
    ensures FuzzyLabel(t) == LateNight <==> t < 5.0
    ensures FuzzyLabel(t) == Morning <==> 5.0 <= t < 11.0
    ensures FuzzyLabel(t) == Afternoon <==> 11.0 <= t < 16.0
    ensures FuzzyLabel(t) == Evening <==> 16.0 <= t < 19.0
    ensures FuzzyLabel(t) == Night <==> 19.0 <= t
  {
  }

  /** Boundaries belong to the later label; the slider's ends give Late Night and Night. */
  lemma LabelBoundaries()
    ensures FuzzyLabel(0.0) == LateNight && FuzzyLabel(4.999) == LateNight
    ensures FuzzyLabel(5.0) == Morning && FuzzyLabel(11.0) == Afternoon
    ensures FuzzyLabel(16.0) == Evening && FuzzyLabel(19.0) == Night
    ensures FuzzyLabel(23.999) == Night && FuzzyLabel(24.0) == Night
  {
  }

  /** Later times never get an earlier label. */
  lemma LabelMonotone(t1: real, t2: real)
    requires t1 <= t2
    ensures Rank(FuzzyLabel(t1)) <= Rank(FuzzyLabel(t2))
  {
  }

  // ---------------------------------------------------------------------------
  // `generateCurve`

  /** Samples per curve: `i` runs from 0 to 240 inclusive. */
  const SampleCount: nat := 241

  /** `x = i / 10` */
  function SampleX(i: nat): real {
    i as real / 10.0
  }

  /** `svgX = x * (1000 / 24)` */
  function SvgX(x: real): real {
    x * (1000.0 / 24.0)
  }

  /** `svgY = 200 - (y * 180)` */
  function SvgY(y: real): real {
    200.0 - y * 180.0
  }

  datatype Point = Point(x: real, y: real)

  /** The i-th vertex of the curve for centre `mu` and width `sigma`. */
  function CurvePoint(i: nat, mu: real, sigma: real, gaussian: (real, real, real) -> real): Point {
    Point(SvgX(SampleX(i)), SvgY(gaussian(SampleX(i), mu, sigma)))
  }

  /** The loop of `generateCurve`: one vertex per sample, in sample order. */
  method GenerateCurve(mu: real, sigma: real, gaussian: (real, real, real) -> real) returns (points: seq<Point>)
    ensures |points| == SampleCount
    ensures forall i :: 0 <= i < |points| ==> points[i] == CurvePoint(i, mu, sigma, gaussian)
  {
    points := [];
    var i := 0;
    while i <= 240
      invariant 0 <= i <= 241
      invariant |points| == i
      invariant forall k :: 0 <= k < i ==> points[k] == CurvePoint(k, mu, sigma, gaussian)
    {
      var x := i as real / 10.0;
      var y := gaussian(x, mu, sigma);
      var svgX := x * (1000.0 / 24.0);
      var svgY := 200.0 - y * 180.0;
      points := points + [Point(svgX, svgY)];
      i := i + 1;
    }
  }

  /** The samples run from hour 0 to hour 24, and across the surface from 0 to 1000, strictly left to right. */
  lemma SamplesSpanSurface(i: nat, j: nat)
    requires i < j < SampleCount
    ensures SampleX(0) == 0.0 && SampleX(SampleCount - 1) == 24.0
    ensures SvgX(SampleX(0)) == 0.0 && SvgX(SampleX(SampleCount - 1)) == 1000.0
    ensures SvgX(SampleX(i)) < SvgX(SampleX(j))
    ensures 0.0 <= SvgX(SampleX(i)) && SvgX(SampleX(j)) <= 1000.0
  {
  }

  /** Memberships in [0, 1] land in [20, 200], and a higher membership is drawn higher up. */
  lemma SvgYRange(y1: real, y2: real)
    requires 0.0 <= y1 <= 1.0 && 0.0 <= y2 <= 1.0
    ensures 20.0 <= SvgY(y1) <= 200.0
    ensures y1 < y2 <==> SvgY(y2) < SvgY(y1)
    ensures SvgY(1.0) == 20.0 && SvgY(0.0) == 200.0
  {
  }

  /** Every vertex of a curve lies in the drawing box [0, 1000] x [20, 200]. */
  lemma CurveInBox(i: nat, mu: real, sigma: real, gaussian: (real, real, real) -> real)
    requires i < SampleCount
    requires 0.0 <= gaussian(SampleX(i), mu, sigma) <= 1.0
    ensures 0.0 <= CurvePoint(i, mu, sigma, gaussian).x <= 1000.0
    ensures 20.0 <= CurvePoint(i, mu, sigma, gaussian).y <= 200.0
  {
    SvgYRange(gaussian(SampleX(i), mu, sigma), 0.0);
  }

  /**
   * The vertices of the path `d`: `M p0 L p0 L p1 ... L p240`, then down to the
   * baseline under the last point and back along it under the first, then `Z`.
   */
  function PathVertices(points: seq<Point>): seq<Point>
    requires points != []
  {
    [points[0]] + points + [Point(points[|points| - 1].x, 200.0), Point(points[0].x, 200.0)]
  }

  /** For a generated curve the path closes along the baseline y = 200 from x = 1000 back to x = 0. */
  lemma PathClosesOnBaseline(points: seq<Point>, mu: real, sigma: real, gaussian: (real, real, real) -> real)
    requires |points| == SampleCount
    requires forall i :: 0 <= i < |points| ==> points[i] == CurvePoint(i, mu, sigma, gaussian)
    ensures |PathVertices(points)| == SampleCount + 3
    ensures PathVertices(points)[SampleCount + 1] == Point(1000.0, 200.0)
    ensures PathVertices(points)[SampleCount + 2] == Point(0.0, 200.0)
    ensures PathVertices(points)[0] == PathVertices(points)[1] == points[0]
  {
    assert points[SampleCount - 1] == CurvePoint(SampleCount - 1, mu, sigma, gaussian);
    assert points[0] == CurvePoint(0, mu, sigma, gaussian);
  }

  // ---------------------------------------------------------------------------
  // The time readout and indicator

  /** JavaScript's `t % 1`: the fractional part, with the sign of `t`. */
  function JsMod1(t: real): real {
    if t >= 0.0 then t - t.Floor as real else t - (-((-t).Floor)) as real
  }

  /** `Math.floor(time)` */
  function HourPart(t: real): int {
    t.Floor
  }

  /** `Math.floor((time % 1) * 60)` */
  function MinutePart(t: real): int {
    (JsMod1(t) * 60.0).Floor
  }

  /** `hh:mm` with each part `toString().padStart(2, '0')`. */
  function Clock(hour: nat, minute: nat): string {
    PadStart(NatToString(hour), 2) + ":" + PadStart(NatToString(minute), 2)
  }

  /** The readout above the indicator, for a time on the slider. */
  function Readout(t: real): string
    requires 0.0 <= t <= 24.0
  {
    HourMinuteBounds(t);
    Clock(HourPart(t), MinutePart(t))
  }

  /** On the slider's range the hour is 0..24 and the minute 0..59. */
  lemma HourMinuteBounds(t: real)
    requires 0.0 <= t <= 24.0
    ensures 0 <= HourPart(t) <= 24 && HourPart(t) as real <= t < HourPart(t) as real + 1.0
    ensures 0 <= MinutePart(t) <= 59
  {
    var f := JsMod1(t);
    assert 0.0 <= f < 1.0;
    assert 0.0 <= f * 60.0 < 60.0;
  }

  /** A padded number below 100 is exactly two digits that read back as the number. */
  lemma PadTwoDigits(n: nat)
    requires n < 100
    ensures |PadStart(NatToString(n), 2)| == 2
    ensures forall k :: 0 <= k < 2 ==> IsDigit(PadStart(NatToString(n), 2)[k])
    ensures DigitsValue(PadStart(NatToString(n), 2)) == n
  {
    NatToStringRoundTrip(n);
    NatToStringLength(n);
    var s := NatToString(n);
    var p := PadStart(s, 2);
    if n < 10 {
      assert p == ['0'] + s;
      assert p[..1] == ['0'];
      assert DigitsValue(p[..1]) == 0 by { assert p[..1][..0] == []; }
    } else {
      assert p == s;
    }
  }

  /** Two numbers below 100 print as `hh:mm`, and each part reads back as its number. */
  lemma ClockShape(hour: nat, minute: nat)
    requires hour < 100 && minute < 100
    ensures |Clock(hour, minute)| == 5 && Clock(hour, minute)[2] == ':'
    ensures forall k :: 0 <= k < 5 && k != 2 ==> IsDigit(Clock(hour, minute)[k])
    ensures DigitsValue(Clock(hour, minute)[..2]) == hour
    ensures DigitsValue(Clock(hour, minute)[3..]) == minute
  {
    PadTwoDigits(hour);
    PadTwoDigits(minute);
    var h := PadStart(NatToString(hour), 2);
    var m := PadStart(NatToString(minute), 2);
    assert (h + ":" + m)[..2] == h;
    assert (h + ":" + m)[3..] == m;
  }

  /** The readout is `hh:mm`; its parts read back as floor(t) and a minute in 0..59. */
  lemma ReadoutShape(t: real)
    requires 0.0 <= t <= 24.0
    ensures |Readout(t)| == 5 && Readout(t)[2] == ':'
    ensures forall k :: 0 <= k < 5 && k != 2 ==> IsDigit(Readout(t)[k])
    ensures DigitsValue(Readout(t)[..2]) == HourPart(t)
    ensures DigitsValue(Readout(t)[3..]) == MinutePart(t)
    ensures 0 <= MinutePart(t) <= 59
  {
    HourMinuteBounds(t);
    ClockShape(HourPart(t), MinutePart(t));
  }

  /** `left: (time / 24) * 100 %` */
  function IndicatorLeft(t: real): real {
    (t / 24.0) * 100.0
  }

  lemma IndicatorInRange(t: real)
    requires 0.0 <= t <= 24.0
    ensures 0.0 <= IndicatorLeft(t) <= 100.0
    ensures IndicatorLeft(0.0) == 0.0 && IndicatorLeft(24.0) == 100.0
  {
  }

  /** The component's `time` state, moved by the range input (min 0, max 24). */
  class TimeSlider {
    var time: real

    ghost predicate Valid()
      reads this
    {
      0.0 <= time <= 24.0
    }

    /** `useState(10)` */
    constructor ()
      ensures Valid() && time == 10.0
    {
      time := 10.0;
    }

    /** `onChange`: the input only yields values within its range. */
    method OnChange(value: real)
      requires 0.0 <= value <= 24.0
      modifies this
      ensures Valid() && time == value
    {
      time := value;
    }

    /** `activeLabel`, which the readout shows only when non-empty. */
    function ActiveLabel(): string
      reads this
    {
      LabelText(FuzzyLabel(time))
    }

    /** On the slider's range `activeLabel` is never `""`, so its span always renders. */
    lemma ActiveLabelShown()
      ensures Valid() ==> ActiveLabel() != ""
    {
      LabelPartition(time);
    }
  }

  // ---------------------------------------------------------------------------
  // `FeatureSelectionChart`

  datatype Bar = Bar(name: string, value: real, best: bool)

  const Bars: seq<Bar> := [
    Bar("Pearson", 0.525, false),
    Bar("Fisher", 0.525, false),
    Bar("Chi-Squared", 0.533, false),
    Bar("Count-Based", 0.508, true)
  ]

  const MaxVal: real := 0.6

  /** `(item.value / maxVal) * 100` percent */
  function BarHeight(value: real): real {
    (value / MaxVal) * 100.0
  }

  /** Every bar fits the chart, and the bar marked best has the lowest error. */
  lemma BarsFitChart(i: nat)
    requires i < |Bars|
    ensures 0.0 < BarHeight(Bars[i].value) <= 100.0
    ensures Bars[i].best <==> i == 3
    ensures Bars[3].value <= Bars[i].value
  {
  }
}
