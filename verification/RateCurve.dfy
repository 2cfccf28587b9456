/** Inverting the measured rate curve of the gimbal, and the simulator's reading of the same curve. */
module RateCurve {
  import opened Ini

  /** Flattened (command, degrees per second) pairs. */
  type Curve = seq<real>

  /** At least one segment, with strictly increasing command knots. */
  predicate GoodCurve(c: Curve)
  {
    |c| >= 4 && |c| % 2 == 0 && forall i :: 0 <= i < |c| - 2 && i % 2 == 0 ==> c[i] < c[i + 2]
  }

  /** A larger command never turns the gimbal slower. */
  predicate NonDecreasing(c: Curve)
  {
    forall i :: 1 <= i < |c| - 2 && i % 2 == 1 ==> c[i] <= c[i + 2]
  }

  predicate IsSegment(c: Curve, s: nat) { s % 2 == 0 && s + 4 <= |c| }

  // ---------- the rate of one command ----------

  /** The first segment from s on whose end the command does not pass, or the last one. */
  function SegmentFrom(c: Curve, command: int, s: nat): (r: nat)
    requires IsSegment(c, s) && |c| % 2 == 0
    ensures IsSegment(c, r) && r >= s
    ensures r + 4 < |c| ==> command as real <= c[r + 2]
    ensures forall i :: s <= i < r && i % 2 == 0 ==> command as real > c[i + 2]
    decreases |c| - s
  {
    if s + 4 < |c| && command as real > c[s + 2] then SegmentFrom(c, command, s + 2) else s
  }

  /** The line through two knots, at x. */
  function LineAt(x1: real, y1: real, x2: real, y2: real, x: real): real
    requires x1 < x2
  {
    y1 + (x - x1) / (x2 - x1) * (y2 - y1)
  }

  function Line(c: Curve, s: nat, x: real): real
    requires GoodCurve(c) && IsSegment(c, s)
  {
    LineAt(c[s], c[s + 1], c[s + 2], c[s + 3], x)
  }

  /** The rate the curve gives a command: interpolated, or extrapolated from the nearest segment. */
  function Rate(c: Curve, command: int): real
    requires GoodCurve(c)
  {
    Line(c, SegmentFrom(c, command, 0), command as real)
  }

  function Clamped(command: int): int { if command < -100 then -100 else if command > 100 then 100 else command }

  function Gained(rate: real, gain: real): real { rate * gain }

  /** The response without a curve. */
  function Linear(k: int, fullScale: real, gain: real): real { Gained(k as real * fullScale / 100.0, gain) }

  /** What the simulator turns a command into; None stands for ValueError. Without a curve (or with an empty one) the
      response is linear. */
  function Response(curve: Option<Curve>, fullScale: real, gain: real, command: int): Option<real>
  {
    var k := Clamped(command);
    if k == 0 then Some(0.0)
    else if curve.None? || curve.value == [] then Some(Linear(k, fullScale, gain))
    else if !GoodCurve(curve.value) then None
    else Some(Gained(Rate(curve.value, k), gain))
  }

  /** vendor_rate_response(): a fresh search for every command. */
  method VendorRateResponse(curve: Option<Curve>, fullScale: real, gain: real, command: int)
    returns (rate: Option<real>)
    ensures rate == Response(curve, fullScale, gain, command)
  {
    hide LineAt, SegmentFrom, Linear, Gained, Rate;
    var k := if command < -100 then -100 else if command > 100 then 100 else command;
    assert k == Clamped(command);
    if k == 0 { return Some(0.0); }
    if curve.None? || curve.value == [] { return Some(Linear(k, fullScale, gain)); }
    var c := curve.value;
    if |c| < 4 || |c| % 2 != 0 { return None; }
    var i := 0;
    while i < |c| - 2
      invariant 0 <= i <= |c| - 2 && i % 2 == 0
      invariant forall j :: 0 <= j < i && j % 2 == 0 ==> c[j] < c[j + 2]
    {
      if c[i] >= c[i + 2] { return None; }
      i := i + 2;
    }
    var r := Interpolated(c, k);
    return Some(Gained(r, gain));
  }

  /** The search for the command's segment. */
  method Interpolated(c: Curve, k: int) returns (rate: real)
    requires GoodCurve(c)
    ensures rate == Rate(c, k)
  {
    hide LineAt, GoodCurve;
    var segment := FindSegment(c, k);
    rate := LineIn(c, segment, k as real);
  }

  /** The interpolation as the simulator writes it. */
  function LineIn(c: Curve, s: nat, x: real): (r: real)
    requires GoodCurve(c) && IsSegment(c, s)
    ensures r == Line(c, s, x)
  {
    Divided(x, c[s], c[s + 1], c[s + 2], c[s + 3])
  }

  /** The first segment whose end the command does not pass, or the last one. */
  method FindSegment(c: Curve, k: int) returns (segment: nat)
    requires GoodCurve(c)
    ensures IsSegment(c, segment) && segment == SegmentFrom(c, k, 0)
  {
    hide SegmentFrom, Passed, GoodCurve;
    CurveShape(c);
    segment := |c| - 4;
    var i := 0;
    PassedFirst(c, k);
    while i < |c| - 2
      invariant 0 <= i <= |c| - 2 && i % 2 == 0 && segment == |c| - 4 && Passed(c, k, i)
    {
      if k as real <= c[i + 2] {
        segment := i;
        break;
      }
      PassedMore(c, k, i);
      i := i + 2;
    }
    if segment < i { PassedBack(c, k, segment, i); }
    PassedSegment(c, k, segment);
  }

  lemma CurveShape(c: Curve)
    requires GoodCurve(c)
    ensures |c| >= 4 && |c| % 2 == 0
  {
  }

  lemma PassedFirst(c: Curve, k: int)
    requires |c| >= 4
    ensures Passed(c, k, 0)
  {
  }

  lemma PassedMore(c: Curve, k: int, i: nat)
    requires i % 2 == 0 && i + 4 <= |c| && Passed(c, k, i) && k as real > c[i + 2]
    ensures Passed(c, k, i + 2)
  {
  }

  lemma PassedBack(c: Curve, k: int, s: nat, i: nat)
    requires s <= i && Passed(c, k, i)
    ensures Passed(c, k, s)
  {
  }

  lemma PassedSegment(c: Curve, k: int, s: nat)
    requires GoodCurve(c) && IsSegment(c, s) && Passed(c, k, s)
    requires s + 4 < |c| ==> k as real <= c[s + 2]
    ensures SegmentFrom(c, k, 0) == s
  {
    hide SegmentFrom, GoodCurve;
    FirstSegment(c, k, s);
  }

  /** The simulator multiplies before it divides. */
  function Divided(x: real, x1: real, y1: real, x2: real, y2: real): (r: real)
    requires x1 < x2
    ensures r == LineAt(x1, y1, x2, y2, x)
  {
    SameLine(x - x1, y2 - y1, x2 - x1);
    y1 + (x - x1) * (y2 - y1) / (x2 - x1)
  }

  /** A search that stops as the C loop's does is the C loop's search. */
  lemma FirstSegment(c: Curve, command: int, s: nat)
    requires GoodCurve(c) && IsSegment(c, s)
    requires s + 4 < |c| ==> command as real <= c[s + 2]
    requires forall j :: 0 <= j < s && j % 2 == 0 ==> command as real > c[j + 2]
    ensures SegmentFrom(c, command, 0) == s
  {
    var r := SegmentFrom(c, command, 0);
    assert !(r < s);
  }

  lemma SameLine(a: real, b: real, d: real)
    requires d > 0.0
    ensures a * b / d == a / d * b
  {
  }

  /** A pointer left where a smaller command stopped finds the same segment as a fresh search. */
  lemma SegmentResumes(c: Curve, smaller: int, command: int)
    requires GoodCurve(c) && smaller <= command
    ensures SegmentFrom(c, command, SegmentFrom(c, smaller, 0)) == SegmentFrom(c, command, 0)
  {
    var s := SegmentFrom(c, smaller, 0);
    var r := SegmentFrom(c, command, s);
    assert forall j :: 0 <= j < r && j % 2 == 0 ==> command as real > c[j + 2];
    FirstSegment(c, command, r);
  }

  // ---------- the curve is monotone ----------

  lemma {:induction false} KnotsGrow(c: Curve, i: nat, j: nat)
    requires NonDecreasing(c) && i <= j < |c| && i % 2 == 1 && j % 2 == 1
    ensures c[i] <= c[j]
    decreases j
  {
    if i < j { KnotsGrow(c, i, j - 2); }
  }

  lemma MulMono(a: real, b: real, m: real)
    requires a <= b && m >= 0.0
    ensures a * m <= b * m
  {
  }

  lemma DivMono(a: real, b: real, d: real)
    requires a <= b && d > 0.0
    ensures a / d <= b / d && d / d == 1.0 && 0.0 / d == 0.0
  {
  }

  /** On one segment a larger command gives a rate no smaller. */
  lemma LineUp(x1: real, y1: real, x2: real, y2: real, a: real, b: real)
    requires x1 < x2 && y1 <= y2 && a <= b
    ensures LineAt(x1, y1, x2, y2, a) <= LineAt(x1, y1, x2, y2, b)
  {
    DivMono(a - x1, b - x1, x2 - x1);
    MulMono((a - x1) / (x2 - x1), (b - x1) / (x2 - x1), y2 - y1);
  }

  /** The line meets its knots. */
  lemma LineKnots(x1: real, y1: real, x2: real, y2: real)
    requires x1 < x2
    ensures LineAt(x1, y1, x2, y2, x1) == y1 && LineAt(x1, y1, x2, y2, x2) == y2
  {
    DivMono(0.0, 0.0, x2 - x1);
    assert (x2 - x1) / (x2 - x1) == 1.0 && (x1 - x1) / (x2 - x1) == 0.0;
  }

  lemma SegmentKnots(c: Curve, s: nat)
    requires GoodCurve(c) && NonDecreasing(c) && IsSegment(c, s)
    ensures c[s] < c[s + 2] && c[s + 1] <= c[s + 3]
  {
    assert s % 2 == 0 && (s + 1) % 2 == 1 && c[s + 1] <= c[(s + 1) + 2];
  }

  lemma EarlierSegment(c: Curve, s1: nat, s2: nat, k1: int, k2: int)
    requires GoodCurve(c) && NonDecreasing(c) && IsSegment(c, s1) && IsSegment(c, s2) && s1 < s2
    requires k1 as real <= c[s1 + 2] && c[s2] <= k2 as real
    ensures Line(c, s1, k1 as real) <= Line(c, s2, k2 as real)
  {
    hide LineAt;
    SegmentKnots(c, s1);
    SegmentKnots(c, s2);
    LineUp(c[s1], c[s1 + 1], c[s1 + 2], c[s1 + 3], k1 as real, c[s1 + 2]);
    LineKnots(c[s1], c[s1 + 1], c[s1 + 2], c[s1 + 3]);
    LineUp(c[s2], c[s2 + 1], c[s2 + 2], c[s2 + 3], c[s2], k2 as real);
    LineKnots(c[s2], c[s2 + 1], c[s2 + 2], c[s2 + 3]);
    KnotsGrow(c, s1 + 3, s2 + 1);
  }

  lemma SameSegment(c: Curve, s: nat, k1: int, k2: int)
    requires GoodCurve(c) && NonDecreasing(c) && IsSegment(c, s) && k1 <= k2
    ensures Line(c, s, k1 as real) <= Line(c, s, k2 as real)
  {
    hide LineAt;
    SegmentKnots(c, s);
    LineUp(c[s], c[s + 1], c[s + 2], c[s + 3], k1 as real, k2 as real);
  }

  lemma RateMonotone(c: Curve, k1: int, k2: int)
    requires GoodCurve(c) && NonDecreasing(c) && k1 <= k2
    ensures Rate(c, k1) <= Rate(c, k2)
  {
    hide Line, NonDecreasing;
    var s1, s2 := SegmentFrom(c, k1, 0), SegmentFrom(c, k2, 0);
    SegmentResumes(c, k1, k2);
    if s1 == s2 {
      SameSegment(c, s1, k1, k2);
    } else {
      var i := s2 - 2;
      assert 0 <= i < s2 && i % 2 == 0 && k2 as real > c[i + 2];
      EarlierSegment(c, s1, s2, k1, k2);
    }
  }

  // ---------- choosing a command ----------

  function Abs(x: real): real { if x < 0.0 then -x else x }

  function Error(c: Curve, d: real, command: int): real
    requires GoodCurve(c)
  {
    Abs(d - Rate(c, command))
  }

  datatype Choice = Choice(command: int, error: real)

  /** The best choice after all commands below `next` were compared, starting from rest. */
  function Chosen(c: Curve, d: real, next: int): Choice
    requires GoodCurve(c) && next >= -100
    decreases next + 100
  {
    if next == -100 then Choice(0, Abs(d))
    else
      var best := Chosen(c, d, next - 1);
      if Error(c, d, next - 1) < best.error then Choice(next - 1, Error(c, d, next - 1)) else best
  }

  /** Every segment before s ends below the command. */
  predicate Passed(c: Curve, command: int, s: nat)
  {
    s <= |c| - 2 && forall j :: 0 <= j < s && j % 2 == 0 ==> command as real > c[j + 2]
  }

  /** The inner loop: the segment pointer moves up to the command's segment. */
  method Advance(c: Curve, command: int, from: nat) returns (segment: nat)
    requires GoodCurve(c) && IsSegment(c, from) && Passed(c, command, from)
    ensures IsSegment(c, segment) && Passed(c, command, segment) && segment == SegmentFrom(c, command, 0)
  {
    hide Passed, GoodCurve, SegmentFrom;
    segment := from;
    CurveShape(c);
    while segment + 4 < |c| && command as real > c[segment + 2]
      invariant IsSegment(c, segment) && Passed(c, command, segment)
      decreases |c| - segment
    {
      PassedMore(c, command, segment);
      segment := segment + 2;
    }
    PassedSegment(c, command, segment);
  }

  /** ca_gimbal_rate_command(): one loop over the commands, with a segment pointer that only moves up. */
  method RateCommand(d: real, curve: Curve) returns (best: int)
    requires GoodCurve(curve)
    ensures best == Chosen(curve, d, 101).command
  {
    hide LineAt, SegmentFrom, Abs, GoodCurve, Chosen, Line, Passed;
    best := 0;
    var bestError := Abs(d);
    var segment := 0;
    assert IsSegment(curve, segment) by { SegmentsExist(curve); }
    PassedFirst(curve, -100);
    ChosenNone(curve, d);
    for command := -100 to 101
      invariant IsSegment(curve, segment) && Passed(curve, command, segment)
      invariant Chosen(curve, d, command) == Choice(best, bestError)
    {
      segment := Advance(curve, command, segment);
      var rate := Line(curve, segment, command as real);
      var error := Abs(d - rate);
      ChosenStep(curve, d, command);
      if error < bestError {
        bestError := error;
        best := command;
      }
      PassedOn(curve, command, segment);
    }
  }

  lemma ChosenNone(c: Curve, d: real)
    requires GoodCurve(c)
    ensures Chosen(c, d, -100) == Choice(0, Abs(d))
  {
  }

  lemma ChosenStep(c: Curve, d: real, command: int)
    requires GoodCurve(c) && command >= -100
    ensures var best := Chosen(c, d, command);
            Chosen(c, d, command + 1)
              == if Error(c, d, command) < best.error then Choice(command, Error(c, d, command)) else best
  {
  }

  /** A larger command passes what a smaller one passes. */
  lemma PassedOn(c: Curve, command: int, s: nat)
    requires Passed(c, command, s)
    ensures Passed(c, command + 1, s)
  {
  }

  lemma SegmentsExist(c: Curve)
    requires GoodCurve(c)
    ensures IsSegment(c, 0)
  {
  }

  /** No smaller error among the compared commands; away from rest the choice is strictly better
      than rest and than every smaller command. */
  lemma {:induction false} ChosenIsBest(c: Curve, d: real, next: int)
    requires GoodCurve(c) && Rate(c, 0) == 0.0 && next >= -100
    ensures var best := Chosen(c, d, next);
            && best.error == Error(c, d, best.command) && best.error <= Error(c, d, 0)
            && (best.command == 0 || -100 <= best.command < next)
            && (forall k :: -100 <= k < next ==> best.error <= Error(c, d, k))
            && (best.command != 0 ==> best.error < Error(c, d, 0))
            && (best.command != 0 ==> forall k :: -100 <= k < best.command ==> best.error < Error(c, d, k))
    decreases next + 100
  {
    hide GoodCurve, Rate;
    if next > -100 { ChosenIsBest(c, d, next - 1); }
  }

  /** The returned command minimises the error over all 201 commands, and is 0 whenever 0 is among the best. */
  lemma BestCommand(c: Curve, d: real)
    requires GoodCurve(c) && Rate(c, 0) == 0.0
    ensures var k := Chosen(c, d, 101).command;
            && -100 <= k <= 100
            && (forall j :: -100 <= j <= 100 ==> Error(c, d, k) <= Error(c, d, j))
            && ((forall j :: -100 <= j <= 100 ==> Error(c, d, 0) <= Error(c, d, j)) ==> k == 0)
            && (k != 0 ==> forall j :: -100 <= j < k ==> Error(c, d, k) < Error(c, d, j))
  {
    hide GoodCurve, Rate, Error;
    ChosenIsBest(c, d, 101);
  }

  /** In the simulator the returned command moves the gimbal no further from the requested rate than any other
      command would. */
  lemma CommandMovesClosest(c: Curve, fullScale: real, d: real, other: int)
    requires GoodCurve(c) && Rate(c, 0) == 0.0
    ensures var moved := Response(Some(c), fullScale, 1.0, Chosen(c, d, 101).command);
            var elsewhere := Response(Some(c), fullScale, 1.0, other);
            moved.Some? && elsewhere.Some? && Abs(d - moved.value) <= Abs(d - elsewhere.value)
  {
    hide Rate, Chosen, Gained, Linear;
    BestCommand(c, d);
    UnitGain(Rate(c, Chosen(c, d, 101).command));
    UnitGain(Rate(c, Clamped(other)));
    assert Error(c, d, Chosen(c, d, 101).command) <= Error(c, d, Clamped(other));
  }

  lemma UnitGain(r: real)
    ensures Gained(r, 1.0) == r
  {
  }

  /** A point no further from r1 than from a smaller r2 lies on r1's side. */
  lemma Closer(d: real, r1: real, r2: real)
    requires r2 < r1
    ensures Abs(d - r1) <= Abs(d - r2) <==> d >= (r1 + r2) / 2.0
    ensures Abs(d - r2) <= Abs(d - r1) <==> d <= (r1 + r2) / 2.0
  {
  }

  /** Asking for a faster rate never gives a smaller command. */
  lemma CommandMonotone(c: Curve, d1: real, d2: real)
    requires GoodCurve(c) && NonDecreasing(c) && Rate(c, 0) == 0.0 && d1 <= d2
    ensures Chosen(c, d1, 101).command <= Chosen(c, d2, 101).command
  {
    hide GoodCurve, Rate, Chosen, NonDecreasing;
    var k1, k2 := Chosen(c, d1, 101).command, Chosen(c, d2, 101).command;
    BestCommand(c, d1);
    BestCommand(c, d2);
    if k2 < k1 {
      RateMonotone(c, k2, k1);
      SameOrCloser(c, d1, d2, k1, k2);
    }
  }

  lemma SameOrCloser(c: Curve, d1: real, d2: real, k1: int, k2: int)
    requires GoodCurve(c) && d1 <= d2 && k2 < k1 && Rate(c, k2) <= Rate(c, k1)
    requires Error(c, d1, k1) <= Error(c, d1, k2) && Error(c, d2, k2) <= Error(c, d2, k1)
    ensures Rate(c, k1) == Rate(c, k2) || d1 == d2
  {
    hide GoodCurve, Rate;
    var r1, r2 := Rate(c, k1), Rate(c, k2);
    if r2 < r1 {
      Closer(d1, r1, r2);
      Closer(d2, r1, r2);
    }
  }

  // ---------- the curve as points on straight lines ----------

  /** Knots i and i + 2 are the command's neighbours; below the first and above the last knot, the nearest two. */
  predicate Around(c: Curve, k: int, i: int)
  {
    && 0 <= i && i % 2 == 0 && i + 4 <= |c|
    && (i == 0 || c[i] <= k as real) && (i + 4 == |c| || k as real <= c[i + 2])
  }

  /** (x, y) is on the straight line through two points. */
  predicate Collinear(x1: real, y1: real, x2: real, y2: real, x: real, y: real)
  {
    (y - y1) * (x2 - x1) == (x - x1) * (y2 - y1)
  }

  predicate OnSegment(c: Curve, k: int, y: real, i: int)
  {
    Around(c, k, i) && Collinear(c[i], c[i + 1], c[i + 2], c[i + 3], k as real, y)
  }

  /** The measured curve has rate y at the command. */
  ghost predicate OnCurve(c: Curve, k: int, y: real) { exists i :: OnSegment(c, k, y, i) }

  lemma ScaleBack(a: real, b: real, d: real)
    requires d > 0.0
    ensures a * d == b <==> a == b / d
  {
  }

  lemma LineCollinear(x1: real, y1: real, x2: real, y2: real, x: real, y: real)
    requires x1 < x2
    ensures Collinear(x1, y1, x2, y2, x, y) <==> y == LineAt(x1, y1, x2, y2, x)
  {
    ScaleBack(y - y1, (x - x1) * (y2 - y1), x2 - x1);
    SameLine(x - x1, y2 - y1, x2 - x1);
  }

  lemma KnotsRise(c: Curve, i: nat, j: nat)
    requires GoodCurve(c) && i <= j <= |c| - 2 && i % 2 == 0 && j % 2 == 0
    ensures c[i] <= c[j] && (i < j ==> c[i] < c[j])
    decreases j
  {
    if i < j { KnotsRise(c, i, j - 2); }
  }

  /** The rate the programs compute is the one on the measured curve: they interpolate between the neighbouring knots,
      and go on straight beyond the ends. */
  lemma RateOnCurve(c: Curve, k: int, y: real)
    requires GoodCurve(c)
    ensures OnCurve(c, k, y) <==> y == Rate(c, k)
  {
    hide LineAt, Collinear;
    var s := SegmentFrom(c, k, 0);
    LineCollinear(c[s], c[s + 1], c[s + 2], c[s + 3], k as real, y);
    if s > 0 {
      var j := s - 2;
      assert 0 <= j < s && j % 2 == 0 && k as real > c[j + 2];
    }
    if y == Rate(c, k) { assert OnSegment(c, k, y, s); }
    if OnCurve(c, k, y) {
      var i :| OnSegment(c, k, y, i);
      if i != s { SharedKnot(c, k, y, s, i); }
    }
  }

  lemma SharedKnot(c: Curve, k: int, y: real, s: nat, i: int)
    requires GoodCurve(c) && s == SegmentFrom(c, k, 0) && OnSegment(c, k, y, i) && i != s
    ensures y == Rate(c, k)
  {
    hide LineAt, Collinear;
    assert forall j :: 0 <= j < s && j % 2 == 0 ==> k as real > c[j + 2];
    assert i > s;
    KnotsRise(c, s + 2, i);
    assert i == s + 2 && k as real == c[i];
    LineCollinear(c[i], c[i + 1], c[i + 2], c[i + 3], k as real, y);
    LineKnots(c[i], c[i + 1], c[i + 2], c[i + 3]);
    LineKnots(c[s], c[s + 1], c[s + 2], c[s + 3]);
  }

  /** For every good curve, whatever its rates: away from rest the returned command is closer than staying at rest and
      as close as any of the 201 commands on the measured curve; at rest none is closer than rest or command 0. */
  lemma BestOnCurve(c: Curve, d: real, y: real, j: int, z: real)
    requires GoodCurve(c) && -100 <= j <= 100 && OnCurve(c, j, z) && OnCurve(c, Chosen(c, d, 101).command, y)
    ensures var k := Chosen(c, d, 101).command;
            && -100 <= k <= 100
            && (k != 0 ==> Abs(d - y) < Abs(d) && Abs(d - y) <= Abs(d - z))
            && (k == 0 ==> Abs(d) <= Abs(d - z) || Abs(d - y) <= Abs(d - z))
  {
    hide GoodCurve, Rate, Chosen, OnCurve, Abs;
    var k := Chosen(c, d, 101).command;
    RateOnCurve(c, j, z);
    RateOnCurve(c, k, y);
    ChosenLeast(c, d, 101, j);
  }

  lemma {:induction false} ChosenLeast(c: Curve, d: real, next: int, j: int)
    requires GoodCurve(c) && next >= -100
    ensures var best := Chosen(c, d, next);
            && (best.command == 0 || -100 <= best.command < next)
            && (best == Choice(0, Abs(d)) || (best.error == Error(c, d, best.command) && best.error < Abs(d)))
            && (-100 <= j < next ==> best.error <= Error(c, d, j))
    decreases next + 100
  {
    hide GoodCurve, Rate;
    if next > -100 { ChosenLeast(c, d, next - 1, j); }
  }

  /** What the simulator makes of a command on a measured curve: the rate on the curve, times the gain. */
  lemma ResponseOnCurve(c: Curve, fullScale: real, gain: real, command: int, y: real)
    requires GoodCurve(c) && -100 <= command <= 100 && command != 0 && OnCurve(c, command, y)
    ensures Response(Some(c), fullScale, gain, command) == Some(y * gain)
  {
    hide Rate, OnCurve, Gained;
    RateOnCurve(c, command, y);
    assert Clamped(command) == command;
    GainedIs(y, gain);
  }

  lemma GainedIs(rate: real, gain: real)
    ensures Gained(rate, gain) == rate * gain
  {
  }

  /** Without a curve it is the command's share of the full scale, times the gain; rest is rest, commands beyond 100
      count as 100, and a malformed curve is an error for every other command. */
  lemma ResponseOtherwise(c: Curve, fullScale: real, gain: real, command: int, r: real)
    ensures -100 <= command <= 100 ==>
              (Response(None, fullScale, gain, command) == Some(r) <==> 100.0 * r == command as real * fullScale * gain)
    ensures Response(Some([]), fullScale, gain, command) == Response(None, fullScale, gain, command)
    ensures Response(Some(c), fullScale, gain, 0) == Some(0.0)
    ensures command > 100 ==> Response(Some(c), fullScale, gain, command) == Response(Some(c), fullScale, gain, 100)
    ensures command < -100 ==> Response(Some(c), fullScale, gain, command) == Response(Some(c), fullScale, gain, -100)
    ensures command != 0 && c != [] ==> (Response(Some(c), fullScale, gain, command).None? <==> !GoodCurve(c))
  {
    hide Rate, GoodCurve, Linear;
    LinearShare(command, fullScale, gain, r);
  }

  lemma LinearShare(k: int, fullScale: real, gain: real, r: real)
    ensures Linear(k, fullScale, gain) == r <==> 100.0 * r == k as real * fullScale * gain
    ensures 100.0 * r == 0.0 * fullScale * gain <==> r == 0.0
  {
    var a := k as real * fullScale;
    assert 100.0 * (a / 100.0 * gain) == a * gain;
  }
}
