/** The live line chart widget: a sliding window of the most recent
    percentages, the latest value and the colour theme. Painting and the
    repaint timer are not modelled. */
module LineCharts {

  datatype Theme = Blue | Green | Red | Purple

  /** The theme a name selects: one of the four known names, or blue for
      any other name. */
  function ThemeNamed(name: string): Theme {
    if name == "green" then Green
    else if name == "red" then Red
    else if name == "purple" then Purple
    else Blue
  }

  /** The name stored for a theme. */
  function ThemeName(t: Theme): string {
    match t
    case Blue => "blue"
    case Green => "green"
    case Red => "red"
    case Purple => "purple"
  }

  /** The stored name of the selected theme is the name asked for when that
      name is known, and "blue" otherwise. */
  lemma ThemeFallback(name: string)
    ensures ThemeName(ThemeNamed(name)) ==
      (if name in {"blue", "green", "red", "purple"} then name else "blue")
  {
  }

  /** Every theme is selected by its own name. */
  lemma ThemeNamesRoundTrip(t: Theme)
    ensures ThemeNamed(ThemeName(t)) == t
  {
  }

  /** `max(0, min(100, value))`. */
  function Percent(v: real): (r: real)
    ensures 0.0 <= r <= 100.0
    ensures 0.0 <= v <= 100.0 ==> r == v
    ensures v < 0.0 ==> r == 0.0
    ensures v > 100.0 ==> r == 100.0
  {
    if v > 100.0 then 100.0 else if v < 0.0 then 0.0 else v
  }

  /** The largest number of points the list can hold: max_points, or none
      at all when max_points is not positive. */
  function Capacity(maxPoints: int): (c: nat)
    ensures c >= maxPoints && (c == maxPoints || c == 0)
  {
    if maxPoints > 0 then maxPoints else 0
  }

  /** The last Capacity(maxPoints) values of `history`, or all of them when
      there are fewer. */
  function Window(history: seq<real>, maxPoints: int): (w: seq<real>)
    ensures |w| <= Capacity(maxPoints)
    ensures |w| == if |history| < Capacity(maxPoints) then |history| else Capacity(maxPoints)
  {
    if |history| <= Capacity(maxPoints) then history
    else history[|history| - Capacity(maxPoints)..]
  }

  /** The list is the window of the newest values added since the last
      clear, and all of them are percentages. */
  ghost predicate Tracks(dataPoints: seq<real>, history: seq<real>, maxPoints: int) {
    && dataPoints == Window(history, maxPoints)
    && (forall k :: 0 <= k < |history| ==> 0.0 <= history[k] <= 100.0)
  }

  /** Nothing added leaves nothing in the window. */
  lemma EmptyTracks(maxPoints: int)
    ensures Tracks([], [], maxPoints)
  {
  }

  class DynamicLineChart {
    const theme: Theme
    const themeName: string
    const maxPoints: int
    const labelText: string
    var dataPoints: seq<real>
    var currentValue: real
    /** Every clamped value added since the chart was made or last cleared. */
    ghost var history: seq<real>

    /** The list is the window of the newest values added since the last
        clear, and all of them are percentages. */
    ghost predicate Valid()
      reads this
    {
      Tracks(dataPoints, history, maxPoints)
    }

    constructor (themeRequested: string, maxPoints: int, labelText: string)
      ensures Valid()
      ensures theme == ThemeNamed(themeRequested)
      ensures themeName == ThemeName(theme)
      ensures this.maxPoints == maxPoints && this.labelText == labelText
      ensures dataPoints == [] && currentValue == 0.0 && history == []
    {
      var t := ThemeNamed(themeRequested);
      theme := t;
      themeName := ThemeName(t);
      this.maxPoints := maxPoints;
      this.labelText := labelText;
      dataPoints := [];
      currentValue := 0.0;
      history := [];
      new;
      EmptyTracks(maxPoints);
    }

    /** Clamp the value to a percentage, append it, drop the oldest point
        once the list is longer than max_points, and show the value. */
    method AddDataPoint(value: real)
      requires Valid()
      modifies this
      ensures Valid()
      ensures currentValue == Percent(value)
      ensures history == old(history) + [Percent(value)]
      ensures |old(dataPoints)| + 1 > maxPoints ==> dataPoints == (old(dataPoints) + [Percent(value)])[1..]
      ensures |old(dataPoints)| + 1 <= maxPoints ==> dataPoints == old(dataPoints) + [Percent(value)]
    {
      var clamped := Percent(value);
      ghost var h := history + [clamped];
      dataPoints := dataPoints + [clamped];
      if |dataPoints| > maxPoints {
        dataPoints := dataPoints[1..];
      }
      currentValue := clamped;
      WindowSnoc(old(history), maxPoints, clamped);
      history := h;
    }

    /** Empty the list and show 0. */
    method ClearData()
      modifies this
      ensures Valid()
      ensures dataPoints == [] && currentValue == 0.0 && history == []
    {
      dataPoints := [];
      currentValue := 0.0;
      history := [];
      EmptyTracks(maxPoints);
    }
  }

  /** One more value moves the window the way add_data_point moves the
      list: appended at the end, with the oldest dropped once the list
      would outgrow max_points. */
  lemma {:induction false} WindowSnoc(history: seq<real>, maxPoints: int, v: real)
    ensures |Window(history, maxPoints)| + 1 > maxPoints ==>
      Window(history + [v], maxPoints) == (Window(history, maxPoints) + [v])[1..]
    ensures |Window(history, maxPoints)| + 1 <= maxPoints ==>
      Window(history + [v], maxPoints) == Window(history, maxPoints) + [v]
  {
    var c := Capacity(maxPoints);
    var h' := history + [v];
    if |Window(history, maxPoints)| + 1 > maxPoints {
      if c > 0 {
        assert |history| >= c;
        assert h'[|h'| - c..] == history[|history| - c..][1..] + [v];
      }
    }
  }

  /** Whatever was added, the list never holds more than max_points values,
      and each of them is a percentage. */
  lemma PointsBounded(c: DynamicLineChart)
    requires c.Valid()
    ensures |c.dataPoints| <= Capacity(c.maxPoints)
    ensures forall k :: 0 <= k < |c.dataPoints| ==> 0.0 <= c.dataPoints[k] <= 100.0
  {
    var n := |c.history| - |c.dataPoints|;
    forall k | 0 <= k < |c.dataPoints|
      ensures 0.0 <= c.dataPoints[k] <= 100.0
    {
      assert c.dataPoints[k] == c.history[n + k];
    }
  }
}
