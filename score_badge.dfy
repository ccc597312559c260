/**
 * The round score badge: in the priority variant its colour is taken from a scale of five
 * thresholds (the colour of the largest threshold not above the score, normalised to
 * 0..10); in the progress variant it has one of two grey backgrounds.
 */
module ScoreBadge {

  /** A JavaScript number as far as the badge can see it: dividing by a zero `max` gives
      an infinity or NaN. */
  datatype JsNumber = Finite(value: real) | PosInfinity | NegInfinity | NaN

  datatype ColourPoint = ColourPoint(score: real, colour: string)

  const Red := "#f87171"
  const Orange := "#fb923c"
  const Yellow := "#fde047"
  const LightGreen := "#86efac"
  const Green := "#4ade80"

  /** The scale as `Object.entries` lists it: the integer-like keys 0, 5 and 10 first, in
      ascending order, then 2.5 and 7.5 in the order they were written. */
  function ColourPoints(): seq<ColourPoint> {
    [ColourPoint(0.0, Red), ColourPoint(5.0, Yellow), ColourPoint(10.0, Green),
     ColourPoint(2.5, Orange), ColourPoint(7.5, LightGreen)]
  }

  /** `threshold <= n` on JavaScript numbers: false for NaN and minus infinity. */
  predicate AtMost(threshold: real, n: JsNumber) {
    match n
    case Finite(v) => threshold <= v
    case PosInfinity => true
    case _ => false
  }

  /** One step of the reduce: `curr.score <= score && curr.score > prev.score ? curr : prev`. */
  function Step(prev: ColourPoint, curr: ColourPoint, n: JsNumber): ColourPoint {
    if AtMost(curr.score, n) && curr.score > prev.score then curr else prev
  }

  /** The reduce over `points`, starting from `prev`. */
  function Reduce(points: seq<ColourPoint>, prev: ColourPoint, n: JsNumber): (r: ColourPoint)
    ensures r == prev || r in points
    ensures r.score >= prev.score
    ensures r != prev ==> AtMost(r.score, n)
    ensures forall c | c in points && AtMost(c.score, n) :: c.score <= r.score
  {
    if points == [] then prev else Reduce(points[1..], Step(prev, points[0], n), n)
  }

  /** `getPriorityColor`, the reduce starting from the first point of the scale. */
  function PriorityColour(n: JsNumber): string {
    Reduce(ColourPoints(), ColourPoints()[0], n).colour
  }

  /** The colour scale read directly: the colour of the largest threshold at most `n`,
      red when there is none. */
  function ScaleColour(n: JsNumber): (r: string) {
    if AtMost(10.0, n) then Green
    else if AtMost(7.5, n) then LightGreen
    else if AtMost(5.0, n) then Yellow
    else if AtMost(2.5, n) then Orange
    else Red
  }

  /** The reduce picks the largest threshold at most the score whatever order the five
      points are visited in, as long as it starts from the zero point. */
  lemma {:induction false} ReduceOrderIndependent(points: seq<ColourPoint>, n: JsNumber)
    requires multiset(points) == multiset(ColourPoints())
    ensures Reduce(points, ColourPoint(0.0, Red), n).colour == ScaleColour(n)
  {
    var r := Reduce(points, ColourPoint(0.0, Red), n);
    var cp := ColourPoints();
    assert forall c | c in points :: c in cp by {
      forall c | c in points ensures c in cp {
        assert c in multiset(points);
      }
    }
    assert forall k | 0 <= k < |cp| :: cp[k] in points by {
      forall k | 0 <= k < |cp| ensures cp[k] in points {
        assert cp[k] in multiset(cp);
      }
    }
    assert cp[0] in points && cp[1] in points && cp[2] in points && cp[3] in points && cp[4] in points;
  }

  /** `getPriorityColor` as written, over the `Object.entries` order, is the scale. */
  lemma PriorityColourIsScale(n: JsNumber)
    ensures PriorityColour(n) == ScaleColour(n)
  {
    ReduceOrderIndependent(ColourPoints(), n);
  }

  /** Below zero, NaN and minus infinity all give red; 10 and above give green. */
  lemma PriorityColourEnds(n: JsNumber)
    ensures !AtMost(0.0, n) ==> PriorityColour(n) == Red
    ensures AtMost(10.0, n) ==> PriorityColour(n) == Green
  {
    PriorityColourIsScale(n);
  }

  /** `normalizedScore`: the raw score in the progress variant, `score / max * 10` in
      the priority variant, with JavaScript's results for a zero `max`. */
  function Normalised(score: real, max: real, isProgress: bool): (r: JsNumber)
    ensures isProgress ==> r == Finite(score)
    ensures !isProgress && max != 0.0 ==> r == Finite(score / max * 10.0)
  {
    if isProgress then Finite(score)
    else if max != 0.0 then Finite(score / max * 10.0)
    else if score > 0.0 then PosInfinity
    else if score < 0.0 then NegInfinity
    else NaN
  }

  /** With a zero `max`, a positive score is green and any other score red. */
  lemma ZeroMaxColours(score: real)
    ensures PriorityColour(Normalised(score, 0.0, false)) == if score > 0.0 then Green else Red
  {
    PriorityColourIsScale(Normalised(score, 0.0, false));
  }

  /** The priority badges of subtasks use `max = 10`, so their colour follows the raw
      score directly. */
  lemma MaxTenKeepsScore(score: real)
    ensures Normalised(score, 10.0, false) == Finite(score)
  {
  }

  /** `getProgressColor`. */
  function ProgressBackground(progress: real): (r: string)
    ensures progress < 50.0 ==> r == "rgba(156, 163, 175, 0.2)"
    ensures progress >= 50.0 ==> r == "rgba(107, 114, 128, 0.2)"
  {
    "rgba(" + (if progress < 50.0 then "156, 163, 175" else "107, 114, 128") + ", 0.2)"
  }

  /** The text colour a browser applies for an inline `color` value: the value itself
      when it is a colour, otherwise the declaration is dropped and the colour is
      inherited from the parent. Only `#rrggbb` values are recognised as colours. */
  datatype TextColour = Inherited | Colour(hex: string)

  predicate IsHexDigit(c: char) {
    '0' <= c <= '9' || 'a' <= c <= 'f' || 'A' <= c <= 'F'
  }

  predicate IsHexColour(v: string) {
    |v| == 7 && v[0] == '#' && forall i | 1 <= i < 7 :: IsHexDigit(v[i])
  }

  function StyleColour(v: string): (r: TextColour)
    ensures r.Colour? <==> IsHexColour(v)
    ensures r.Colour? ==> r.hex == v
  {
    if IsHexColour(v) then Colour(v) else Inherited
  }

  /** Every colour of the scale is a `#rrggbb` colour. */
  lemma PriorityColourIsHex(n: JsNumber)
    ensures IsHexColour(PriorityColour(n))
  {
    PriorityColourIsScale(n);
    PaletteIsHex();
  }

  lemma PaletteIsHex()
    ensures IsHexColour(Red) && IsHexColour(Orange) && IsHexColour(Yellow)
    ensures IsHexColour(LightGreen) && IsHexColour(Green)
  {
    assert IsHexColour(Red);
    assert IsHexColour(Orange);
    assert IsHexColour(Yellow);
    assert IsHexColour(LightGreen);
    assert IsHexColour(Green);
  }

  datatype Style = Style(background: string, text: TextColour)

  /** The text colour as written: the Tailwind class name `text-gray-600` in the progress
      variant, the scale colour in the priority variant. */
  function TextColourValue(score: real, max: real, isProgress: bool): (r: string)
    ensures isProgress ==> r == "text-gray-600"
    ensures !isProgress ==> r == PriorityColour(Normalised(score, max, false))
  {
    if isProgress then "text-gray-600" else PriorityColour(Normalised(score, max, isProgress))
  }

  /** The badge's background and effective text colour for a variant (`isProgress` for
      "progress"), as written: the class name passed as a CSS colour is dropped, so the
      progress variant inherits its text colour. */
  function BadgeStyle(score: real, max: real, isProgress: bool): (r: Style)
    ensures isProgress ==> r == Style(ProgressBackground(score), Inherited)
    ensures !isProgress ==> var c := PriorityColour(Normalised(score, max, false));
      r == Style(c + "20", Colour(c))
  {
    PriorityColourIsHex(Normalised(score, max, false));
    var background := if isProgress then ProgressBackground(score) else PriorityColour(Normalised(score, max, isProgress)) + "20";
    Style(background, StyleColour(TextColourValue(score, max, isProgress)))
  }

  /** The progress badge as written never gets grey text: whatever the score, its text
      colour is inherited. */
  lemma ProgressTextNotGrey(score: real, max: real)
    ensures BadgeStyle(score, max, true).text == Inherited
    ensures !IsHexColour("text-gray-600")
  {
    assert "text-gray-600"[0] == 't';
  }

  /** Tailwind's gray-600. */
  const Gray600 := "#4b5563"

  /** The badge as evidently intended: grey-600 text in the progress variant. */
  function IntendedBadgeStyle(score: real, max: real, isProgress: bool): (r: Style)
    ensures r.background == BadgeStyle(score, max, isProgress).background
    ensures isProgress ==> r.text == Colour(Gray600)
    ensures !isProgress ==> r == BadgeStyle(score, max, isProgress)
  {
    var textValue := if isProgress then Gray600 else TextColourValue(score, max, isProgress);
    Style(BadgeStyle(score, max, isProgress).background, StyleColour(textValue))
  }

  /** In the intended badge every variant has a colour of its own, and the priority
      variant agrees with the badge as written. */
  lemma IntendedTextAlwaysColoured(score: real, max: real, isProgress: bool)
    ensures IntendedBadgeStyle(score, max, isProgress).text.Colour?
    ensures !isProgress ==>
      IntendedBadgeStyle(score, max, isProgress).text == Colour(PriorityColour(Normalised(score, max, false)))
  {
    PriorityColourIsHex(Normalised(score, max, false));
    assert IsHexColour(Gray600) by {
      assert Gray600 == ['#', '4', 'b', '5', '5', '6', '3'];
    }
  }
}
