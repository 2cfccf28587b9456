/** The signed joint-coordinate transform of the gimbal and its inverse, over the reals. */
module Transform {

  // ---------- wrapping ----------

  /** apcam_wrap_degrees() as a function. */
  function Wrap(v: real): (r: real)
    ensures -180.0 <= r <= 180.0
    decreases if v > 180.0 then v.Floor else if v < -180.0 then (-v).Floor else 0
  {
    if v > 180.0 then Wrap(v - 360.0) else if v < -180.0 then Wrap(v + 360.0) else v
  }

  /** The two loops. */
  method WrapDegrees(angle: real) returns (v: real)
    ensures v == Wrap(angle)
  {
    v := angle;
    while v > 180.0
      invariant Wrap(v) == Wrap(angle) && (angle >= -180.0 ==> v > -180.0 || v == angle)
      decreases if v > 180.0 then v.Floor else 0
    {
      v := v - 360.0;
    }
    while v < -180.0
      invariant Wrap(v) == Wrap(angle) && v <= 180.0
      decreases if v < -180.0 then (-v).Floor else 0
    {
      v := v + 360.0;
    }
  }

  /** a is b after k full turns. */
  predicate Turned(a: real, b: real, k: int) { a == b + 360.0 * k as real }

  /** Wrapping turns towards zero, and only as often as it must. */
  lemma {:induction false} WrapTurns(v: real) returns (k: int)
    ensures Turned(Wrap(v), v, k)
    ensures v > 180.0 ==> k < 0 && Wrap(v) > -180.0
    ensures v < -180.0 ==> k > 0 && Wrap(v) < 180.0
    ensures -180.0 <= v <= 180.0 ==> k == 0
    decreases if v > 180.0 then v.Floor else if v < -180.0 then (-v).Floor else 0
  {
    if v > 180.0 {
      k := WrapTurns(v - 360.0);
      k := k - 1;
    } else if v < -180.0 {
      k := WrapTurns(v + 360.0);
      k := k + 1;
    } else {
      k := 0;
    }
  }

  // ---------- one axis ----------

  /** A sign and an offset: what the transform does to one axis. */
  function Forward(s: real, o: real, x: real): real { Wrap(s * x + o) }
  function Backward(s: real, o: real, y: real): real { Wrap(s * (y - o)) }

  predicate Sign(s: real) { s == 1.0 || s == -1.0 }

  lemma SignTurns(s: real, x: real, o: real, y: real, k: int) returns (j: int)
    requires Sign(s) && Turned(y, s * x + o, k)
    ensures Turned(s * (y - o), x, j) && j as real == s * k as real
  {
    j := if s == 1.0 then k else -k;
    assert y - o == s * x + 360.0 * k as real;
  }

  /** There and back is the same angle up to full turns. */
  lemma AxisTurns(s: real, o: real, x: real) returns (j: int)
    requires Sign(s)
    ensures Turned(Backward(s, o, Forward(s, o, x)), x, j)
  {
    var k := WrapTurns(s * x + o);
    var i := SignTurns(s, x, o, Forward(s, o, x), k);
    var m := WrapTurns(s * (Forward(s, o, x) - o));
    j := i + m;
  }

  /** Which whole turns bring an angle back into (-180, 180). */
  lemma NoTurn(a: real, x: real, j: int)
    requires Turned(a, x, j) && -180.0 < x < 180.0 && -180.0 <= a <= 180.0
    ensures j == 0 && a == x
  {
  }

  /** There and back is exact precisely for angles strictly inside (-180, 180), and for a half turn whose
      offset does not push it over the edge. */
  lemma AxisExact(s: real, o: real, x: real)
    requires Sign(s)
    ensures Backward(s, o, Forward(s, o, x)) == x
       <==> -180.0 < x < 180.0 || (x == 180.0 && s * o <= 0.0) || (x == -180.0 && s * o >= 0.0)
  {
    var j := AxisTurns(s, o, x);
    if -180.0 < x < 180.0 {
      NoTurn(Backward(s, o, Forward(s, o, x)), x, j);
    } else if x == 180.0 || x == -180.0 {
      HalfTurn(s, o, x);
    }
  }

  /** An input that shows it: a half turn comes back as the opposite half turn. */
  lemma HalfTurnFlips()
    ensures Backward(1.0, 90.0, Forward(1.0, 90.0, 180.0)) == -180.0
  {
    assert Wrap(270.0) == Wrap(-90.0) == -90.0;
  }

  lemma HalfTurn(s: real, o: real, x: real)
    requires Sign(s) && (x == 180.0 || x == -180.0)
    ensures Backward(s, o, Forward(s, o, x)) == x <==> if x == 180.0 then s * o <= 0.0 else s * o >= 0.0
  {
    var k := WrapTurns(s * x + o);
    var j := SignTurns(s, x, o, Forward(s, o, x), k);
    WrapHalf(s * (Forward(s, o, x) - o), x, j);
    SideOfTurn(s, o, x, k, j);
  }

  /** A half turn plus whole turns wraps to the side it came from. */
  lemma WrapHalf(v: real, x: real, j: int)
    requires Turned(v, x, j) && (x == 180.0 || x == -180.0)
    ensures x == 180.0 ==> (Wrap(v) == x <==> j >= 0)
    ensures x == -180.0 ==> (Wrap(v) == x <==> j <= 0)
  {
    hide Wrap;
    var m := WrapTurns(v);
    assert Wrap(v) == x + 360.0 * (j + m) as real;
  }

  lemma SideOfTurn(s: real, o: real, x: real, k: int, j: int)
    requires Sign(s) && (x == 180.0 || x == -180.0) && j as real == s * k as real
    requires s * x + o > 180.0 ==> k < 0
    requires s * x + o < -180.0 ==> k > 0
    requires -180.0 <= s * x + o <= 180.0 ==> k == 0
    ensures x == 180.0 ==> (j >= 0 <==> s * o <= 0.0)
    ensures x == -180.0 ==> (j <= 0 <==> s * o >= 0.0)
  {
    if s == 1.0 {
      assert s * x == x && s * o == o && j == k;
    } else {
      assert s * x == -x && s * o == -o && j == -k;
    }
  }

  // ---------- the matrix ----------

  /** Row-major 3 x 3 matrix and joint zero positions, in roll, pitch, yaw order. */
  datatype Gimbal = Gimbal(matrix: seq<real>, offset: seq<real>)

  type Triple = v: seq<real> | |v| == 3 witness [0.0, 0.0, 0.0]

  /** Row r of the matrix has its one entry, a sign, in column p[r], and no two rows share a column. */
  predicate Permutes(t: Gimbal, p: seq<nat>, s: seq<real>)
  {
    && |t.matrix| == 9 && |t.offset| == 3 && |p| == 3 && |s| == 3
    && (forall r :: 0 <= r < 3 ==> p[r] < 3 && Sign(s[r]))
    && p[0] != p[1] && p[1] != p[2] && p[0] != p[2]
    && forall r, c :: 0 <= r < 3 && 0 <= c < 3 ==> Cell(t, r, c) == if c == p[r] then s[r] else 0.0
  }

  predicate Shaped(t: Gimbal) { |t.matrix| == 9 && |t.offset| == 3 }

  function Cell(t: Gimbal, row: nat, col: nat): real
    requires Shaped(t) && row < 3 && col < 3
  {
    t.matrix[3 * row + col]
  }

  function Zero(t: Gimbal, i: nat, rates: bool): real
    requires Shaped(t) && i < 3
  {
    if rates then 0.0 else t.offset[i]
  }

  /** The first `cols` terms of a row of apcam_transform(), after its offset. */
  function RowSum(t: Gimbal, x: Triple, row: nat, cols: nat, rates: bool): real
    requires Shaped(t) && row < 3 && cols <= 3
  {
    if cols == 0 then Zero(t, row, rates)
    else RowSum(t, x, row, cols - 1, rates) + Cell(t, row, cols - 1) * x[cols - 1]
  }

  /** The first `cols` terms of a row of apcam_inverse_transform(). */
  function ColumnSum(t: Gimbal, y: Triple, row: nat, cols: nat, rates: bool): real
    requires Shaped(t) && row < 3 && cols <= 3
  {
    if cols == 0 then 0.0
    else ColumnSum(t, y, row, cols - 1, rates) + Cell(t, cols - 1, row) * (y[cols - 1] - Zero(t, cols - 1, rates))
  }

  function ForwardRow(t: Gimbal, x: Triple, row: nat, rates: bool): real
    requires Shaped(t) && row < 3
  {
    RowSum(t, x, row, 3, rates)
  }

  function BackwardRow(t: Gimbal, y: Triple, row: nat, rates: bool): real
    requires Shaped(t) && row < 3
  {
    ColumnSum(t, y, row, 3, rates)
  }

  function Settle(v: real, rates: bool): real { if rates then v else Wrap(v) }

  function Transformed(t: Gimbal, x: Triple, rates: bool): Triple
    requires Shaped(t)
  {
    [Settle(ForwardRow(t, x, 0, rates), rates), Settle(ForwardRow(t, x, 1, rates), rates),
     Settle(ForwardRow(t, x, 2, rates), rates)]
  }

  function Inverted(t: Gimbal, y: Triple, rates: bool): Triple
    requires Shaped(t)
  {
    [Settle(BackwardRow(t, y, 0, rates), rates), Settle(BackwardRow(t, y, 1, rates), rates),
     Settle(BackwardRow(t, y, 2, rates), rates)]
  }

  /** apcam_transform(): nested loops into a result that is copied out at the end, so that the
      output may be the input. */
  method TransformAngles(t: Gimbal, input: array<real>, output: array<real>, rates: bool)
    requires Shaped(t) && input.Length == 3 && output.Length == 3
    modifies output
    ensures output[..] == Transformed(t, old(input[..]), rates)
  {
    hide Wrap, Cell, Zero;
    var result := new real[3];
    ghost var x: Triple := input[..];
    for row := 0 to 3
      invariant input[..] == x
      invariant forall r :: 0 <= r < row ==> result[r] == Settle(ForwardRow(t, x, r, rates), rates)
    {
      var v := Zero(t, row, rates);
      for col := 0 to 3
        invariant input[..] == x && v == RowSum(t, x, row, col, rates)
        invariant forall r :: 0 <= r < row ==> result[r] == Settle(ForwardRow(t, x, r, rates), rates)
      {
        assert x[col] == input[col];
        v := v + Cell(t, row, col) * input[col];
      }
      if !rates { v := WrapDegrees(v); }
      result[row] := v;
    }
    CopyOut(result, output);
  }

  /** apcam_inverse_transform() */
  method InverseTransformAngles(t: Gimbal, input: array<real>, output: array<real>, rates: bool)
    requires Shaped(t) && input.Length == 3 && output.Length == 3
    modifies output
    ensures output[..] == Inverted(t, old(input[..]), rates)
  {
    hide Wrap, Cell, Zero;
    var result := new real[3];
    ghost var y: Triple := input[..];
    for row := 0 to 3
      invariant input[..] == y
      invariant forall r :: 0 <= r < row ==> result[r] == Settle(BackwardRow(t, y, r, rates), rates)
    {
      var v := 0.0;
      for col := 0 to 3
        invariant input[..] == y && v == ColumnSum(t, y, row, col, rates)
        invariant forall r :: 0 <= r < row ==> result[r] == Settle(BackwardRow(t, y, r, rates), rates)
      {
        assert y[col] == input[col];
        v := v + Cell(t, col, row) * (input[col] - Zero(t, col, rates));
      }
      if !rates { v := WrapDegrees(v); }
      result[row] := v;
    }
    CopyOut(result, output);
  }

  method CopyOut(result: array<real>, output: array<real>)
    requires result.Length == output.Length == 3 && result != output
    modifies output
    ensures output[..] == [result[0], result[1], result[2]]
  {
    for i := 0 to 3
      invariant forall r :: 0 <= r < i ==> output[r] == result[r]
    {
      output[i] := result[i];
    }
  }

  /** For any matrix, row-major: the transform multiplies by its rows, the inverse by its columns. */
  lemma MatrixProducts(t: Gimbal, v: Triple, r: nat)
    requires Shaped(t) && r < 3
    ensures var m := t.matrix;
            && Transformed(t, v, true)[r] == m[3 * r] * v[0] + m[3 * r + 1] * v[1] + m[3 * r + 2] * v[2]
            && Inverted(t, v, true)[r] == m[r] * v[0] + m[3 + r] * v[1] + m[6 + r] * v[2]
  {
    hide ForwardRow, BackwardRow;
    RowSteps(t, v, r);
    ColumnSteps(t, v, r);
    assert Transformed(t, v, true)[r] == ForwardRow(t, v, r, true);
    assert Inverted(t, v, true)[r] == BackwardRow(t, v, r, true);
  }

  lemma RowSteps(t: Gimbal, v: Triple, r: nat)
    requires Shaped(t) && r < 3
    ensures var m := t.matrix;
            ForwardRow(t, v, r, true) == m[3 * r] * v[0] + m[3 * r + 1] * v[1] + m[3 * r + 2] * v[2]
  {
    var m := t.matrix;
    assert RowSum(t, v, r, 1, true) == RowSum(t, v, r, 0, true) + m[3 * r] * v[0];
    assert RowSum(t, v, r, 2, true) == RowSum(t, v, r, 1, true) + m[3 * r + 1] * v[1];
    assert RowSum(t, v, r, 3, true) == RowSum(t, v, r, 2, true) + m[3 * r + 2] * v[2];
  }

  lemma ColumnSteps(t: Gimbal, v: Triple, r: nat)
    requires Shaped(t) && r < 3
    ensures var m := t.matrix; BackwardRow(t, v, r, true) == m[r] * v[0] + m[3 + r] * v[1] + m[6 + r] * v[2]
  {
    var m := t.matrix;
    NoOffset(v[0]);
    NoOffset(v[1]);
    NoOffset(v[2]);
    assert ColumnSum(t, v, r, 1, true) == ColumnSum(t, v, r, 0, true) + m[r] * v[0];
    assert ColumnSum(t, v, r, 2, true) == ColumnSum(t, v, r, 1, true) + m[3 + r] * v[1];
    assert ColumnSum(t, v, r, 3, true) == ColumnSum(t, v, r, 2, true) + m[6 + r] * v[2];
  }

  lemma NoOffset(x: real)
    ensures x - 0.0 == x
  {
  }

  /** A row with one entry picks one coordinate. */
  lemma PickRow(t: Gimbal, p: seq<nat>, s: seq<real>, x: Triple, r: nat, rates: bool)
    requires Permutes(t, p, s) && r < 3
    ensures ForwardRow(t, x, r, rates) == s[r] * x[p[r]] + Zero(t, r, rates)
  {
    hide Cell;
    var a, b, c := Cell(t, r, 0), Cell(t, r, 1), Cell(t, r, 2);
    var z := Zero(t, r, rates);
    assert RowSum(t, x, r, 1, rates) == z + a * x[0];
    assert RowSum(t, x, r, 3, rates) == z + a * x[0] + b * x[1] + c * x[2];
  }

  /** A column with one entry picks the row that has it. */
  lemma PickColumn(t: Gimbal, p: seq<nat>, s: seq<real>, y: Triple, r: nat, rates: bool)
    requires Permutes(t, p, s) && r < 3
    ensures BackwardRow(t, y, p[r], rates) == s[r] * (y[r] - Zero(t, r, rates))
  {
    hide Cell, Zero;
    var c := p[r];
    var a, b, d := Cell(t, 0, c), Cell(t, 1, c), Cell(t, 2, c);
    var u, v, w := y[0] - Zero(t, 0, rates), y[1] - Zero(t, 1, rates), y[2] - Zero(t, 2, rates);
    assert ColumnSum(t, y, c, 1, rates) == 0.0 + a * u;
    assert ColumnSum(t, y, c, 3, rates) == 0.0 + a * u + b * v + d * w;
    OneTerm(a, b, d, u, v, w);
  }

  lemma OneTerm(a: real, b: real, c: real, u: real, v: real, w: real)
    ensures a == 0.0 && b == 0.0 ==> 0.0 + a * u + b * v + c * w == c * w
    ensures a == 0.0 && c == 0.0 ==> 0.0 + a * u + b * v + c * w == b * v
    ensures b == 0.0 && c == 0.0 ==> 0.0 + a * u + b * v + c * w == a * u
  {
  }

  lemma SignTwice(s: real, x: real)
    requires Sign(s)
    ensures s * (s * x) == x
  {
  }

  /** What the transform and its inverse give: the signed coordinate and the joint zero position, up to whole turns for
      angles, inside [-180, 180], and with no turn where there is none to take; rates have no zero position. */
  lemma TransformMeans(t: Gimbal, p: seq<nat>, s: seq<real>, x: Triple, r: nat) returns (k: int, j: int)
    requires Permutes(t, p, s) && r < 3
    ensures Transformed(t, x, true)[r] == s[r] * x[p[r]] && Inverted(t, x, true)[p[r]] == s[r] * x[r]
    ensures Turned(Transformed(t, x, false)[r], s[r] * x[p[r]] + t.offset[r], k)
    ensures Turned(Inverted(t, x, false)[p[r]], s[r] * (x[r] - t.offset[r]), j)
    ensures -180.0 <= Transformed(t, x, false)[r] <= 180.0 && -180.0 <= Inverted(t, x, false)[p[r]] <= 180.0
    ensures -180.0 <= s[r] * x[p[r]] + t.offset[r] <= 180.0 ==> k == 0
    ensures -180.0 <= s[r] * (x[r] - t.offset[r]) <= 180.0 ==> j == 0
  {
    hide ForwardRow, BackwardRow, Permutes, Wrap, Turned, Transformed, Inverted;
    RowsOf(t, p, s, x, r);
    PickRow(t, p, s, x, r, true);
    PickRow(t, p, s, x, r, false);
    PickColumn(t, p, s, x, r, true);
    PickColumn(t, p, s, x, r, false);
    var back := s[r] * (x[r] - t.offset[r]);
    assert BackwardRow(t, x, p[r], false) == back;
    k := WrapTurns(s[r] * x[p[r]] + t.offset[r]);
    j := WrapTurns(back);
  }

  lemma RowsOf(t: Gimbal, p: seq<nat>, s: seq<real>, x: Triple, r: nat)
    requires Permutes(t, p, s) && r < 3
    ensures |p| == 3 == |s| && p[r] < 3 && Shaped(t)
    ensures forall rates :: Transformed(t, x, rates)[r] == Settle(ForwardRow(t, x, r, rates), rates)
    ensures forall rates :: Inverted(t, x, rates)[p[r]] == Settle(BackwardRow(t, x, p[r], rates), rates)
  {
    hide ForwardRow, BackwardRow, Wrap;
  }

  /** The inverse after the transform: exact for rates; for angles the same modulo 360 on every axis, and exact
      precisely as `AxisExact` says. */
  lemma InverseAfterTransform(t: Gimbal, p: seq<nat>, s: seq<real>, x: Triple, r: nat) returns (k: int)
    requires Permutes(t, p, s) && r < 3
    ensures Inverted(t, Transformed(t, x, true), true)[p[r]] == x[p[r]]
    ensures var a, b := x[p[r]], Inverted(t, Transformed(t, x, false), false)[p[r]];
            && Turned(b, a, k)
            && (b == a <==> -180.0 < a < 180.0 || (a == 180.0 && s[r] * t.offset[r] <= 0.0)
                            || (a == -180.0 && s[r] * t.offset[r] >= 0.0))
  {
    hide Wrap, ForwardRow, BackwardRow;
    PickRow(t, p, s, x, r, true);
    PickRow(t, p, s, x, r, false);
    PickColumn(t, p, s, Transformed(t, x, true), r, true);
    PickColumn(t, p, s, Transformed(t, x, false), r, false);
    SignTwice(s[r], x[p[r]]);
    var there := Forward(s[r], t.offset[r], x[p[r]]);
    assert Inverted(t, Transformed(t, x, false), false)[p[r]] == Backward(s[r], t.offset[r], there);
    AxisExact(s[r], t.offset[r], x[p[r]]);
    k := AxisTurns(s[r], t.offset[r], x[p[r]]);
  }

  /** The transform after the inverse: the same, with the offset on the other side. */
  lemma TransformAfterInverse(t: Gimbal, p: seq<nat>, s: seq<real>, y: Triple, r: nat) returns (k: int)
    requires Permutes(t, p, s) && r < 3
    ensures Transformed(t, Inverted(t, y, true), true)[r] == y[r]
    ensures var b := Transformed(t, Inverted(t, y, false), false)[r];
            && Turned(b, y[r], k)
            && (b == y[r] <==> -180.0 < y[r] < 180.0 || (y[r] == 180.0 && t.offset[r] >= 0.0)
                               || (y[r] == -180.0 && t.offset[r] <= 0.0))
  {
    hide Wrap, ForwardRow, BackwardRow;
    PickColumn(t, p, s, y, r, true);
    PickColumn(t, p, s, y, r, false);
    PickRow(t, p, s, Inverted(t, y, true), r, true);
    PickRow(t, p, s, Inverted(t, y, false), r, false);
    SignTwice(s[r], y[r]);
    k := BackTurns(s[r], t.offset[r], y[r]);
  }

  lemma BackTurns(s: real, o: real, y: real) returns (j: int)
    requires Sign(s)
    ensures var b := Wrap(s * Wrap(s * (y - o)) + o);
            && Turned(b, y, j)
            && (b == y <==> -180.0 < y < 180.0 || (y == 180.0 && o >= 0.0) || (y == -180.0 && o <= 0.0))
  {
    hide Wrap;
    var k := WrapTurns(s * (y - o));
    var v := s * Wrap(s * (y - o)) + o;
    var m := WrapTurns(v);
    var i := if s == 1.0 then k else -k;
    assert Turned(v, y, i);
    j := m + i;
    if -180.0 < y < 180.0 {
      NoTurn(Wrap(v), y, j);
    } else if y == 180.0 || y == -180.0 {
      WrapHalf(v, y, i);
      assert s * (y - o) == if s == 1.0 then y - o else o - y;
    }
  }
}
