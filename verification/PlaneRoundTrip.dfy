/** The inverse two-dimensional transform undoes the forward one: transforms of rows and of columns
    can be exchanged, because both are linear. */
module PlaneRoundTrip {
  import opened Matrices
  import opened Complexes
  import opened FourierValues
  import opened CosineSums
  import opened FastCosineTransform
  import opened CosineRoundTrip
  import opened PlaneTransforms

  // ---------- linear transforms of a line ----------

  ghost predicate LinearAt(f: Line -> Line, n: nat, a: Line, b: Line, r: real, d: Line) {
    |d| == n + 1 && Combined(a, b, r, d) ==> Combined(f(a), f(b), r, f(d))
  }

  ghost predicate Linear(f: Line -> Line, n: nat) {
    KeepsLength(f, n) && forall a: Line, b: Line, r: real, d: Line :: LinearAt(f, n, a, b, r, d)
  }

  lemma CombinedCosines(a: Line, b: Line, r: real, d: Line, zeta: Complex, n: nat, p: Line, q: Line, s: Line)
    requires Combined(a, b, r, d) && |d| == n + 1
    requires p == Cosines(a, zeta, n) && q == Cosines(b, zeta, n) && s == Cosines(d, zeta, n)
    ensures Combined(p, q, r, s)
  {
    forall k: nat | k < |s|
      ensures CombinedAt(p, q, r, s, k)
    {
      CombinedSum(a, b, r, d, Pow(zeta, k), n + 1);
    }
  }

  lemma CombinedScaled(a: Line, b: Line, r: real, d: Line, n: nat)
    requires Combined(a, b, r, d) && n > 0
    ensures Combined(TwiceOverAll(n, a), TwiceOverAll(n, b), r, TwiceOverAll(n, d))
  {
    var p, q, s := TwiceOverAll(n, a), TwiceOverAll(n, b), TwiceOverAll(n, d);
    forall k: nat | k < |s|
      ensures CombinedAt(p, q, r, s, k)
    {
      assert CombinedAt(a, b, r, d, k);
      TwiceOverCombined(n, Item(a, k), Item(b, k), r);
    }
  }

  lemma TwiceOverCombined(n: nat, p: real, q: real, r: real)
    requires n > 0
    ensures TwiceOver(n, p + r * q) == TwiceOver(n, p) + r * TwiceOver(n, q)
  {
    TwiceOverIs(n, p + r * q);
    TwiceOverIs(n, p);
    TwiceOverIs(n, q);
    Regrouped(2.0 / n as real, p, q, r);
  }

  lemma Regrouped(c: real, p: real, q: real, r: real)
    ensures c * (p + r * q) == c * p + r * (c * q)
  {
  }

  lemma CombinedInverse(a: Line, b: Line, r: real, d: Line, zeta: Complex, n: nat)
    requires Combined(a, b, r, d) && |d| == n + 1 && n > 0
    ensures Combined(InverseCosines(a, zeta, n), InverseCosines(b, zeta, n), r, InverseCosines(d, zeta, n))
  {
    CombinedEnds(a, b, r, d);
    var p, q, s := Cosines(HalvedEnds(a), zeta, n), Cosines(HalvedEnds(b), zeta, n), Cosines(HalvedEnds(d), zeta, n);
    CombinedCosines(HalvedEnds(a), HalvedEnds(b), r, HalvedEnds(d), zeta, n, p, q, s);
    CombinedScaled(p, q, r, s, n);
    CombinedEnds(TwiceOverAll(n, p), TwiceOverAll(n, q), r, TwiceOverAll(n, s));
  }

  // ---------- rows against columns ----------

  /** Entry q is the cosine sum of the first t numbers of column q. */
  ghost function RowOfSums(columns: Matrix, x: Complex, t: nat): (row: Line)
    ensures |row| == |columns| && forall q | 0 <= q < |row| :: row[q] == CosineSum(columns[q], x, t)
  {
    seq(|columns|, q requires 0 <= q < |columns| => CosineSum(columns[q], x, t))
  }

  lemma RowOfSumsGrows(columns: Matrix, x: Complex, t: nat, row: Line, c: real, before: Line, after: Line)
    requires |row| == |columns| && c == Pow(x, t).re && before == RowOfSums(columns, x, t) && after == RowOfSums(columns, x, t + 1)
    requires forall q | 0 <= q < |row| :: Item(columns[q], t) == row[q]
    ensures Combined(before, row, c, after)
  {
    forall q: nat | q < |after|
      ensures CombinedAt(before, row, c, after, q)
    {
      ColumnGrows(columns[q], x, t, row[q], c, before[q], after[q]);
    }
  }

  lemma ColumnGrows(column: Line, x: Complex, t: nat, v: real, c: real, before: real, after: real)
    requires c == Pow(x, t).re && v == Item(column, t) && before == CosineSum(column, x, t) && after == CosineSum(column, x, t + 1)
    ensures CombinedSums(before, v, c, after)
  {
    TermAdds(column, x, t, Pow(x, t));
  }

  lemma CombinedSame(a: Line, b: Line, r: real, d: Line, e: Line)
    requires Combined(a, b, r, d) && Combined(a, b, r, e)
    ensures d == e
  {
    forall k: nat | k < |d|
      ensures d[k] == e[k]
    {
      assert CombinedAt(a, b, r, d, k) && CombinedAt(a, b, r, e, k);
    }
  }

  lemma ZeroCombined(n: nat)
    ensures Combined(Zeros(n), Zeros(n), 1.0, Zeros(n))
  {
  }

  lemma ZeroStaysZero(z: Line)
    requires Combined(z, z, 1.0, z)
    ensures z == Zeros(|z|)
  {
    forall k: nat | k < |z|
      ensures z[k] == 0.0
    {
      assert CombinedAt(z, z, 1.0, z, k);
    }
  }

  lemma NothingSummed(columns: Matrix, x: Complex)
    ensures RowOfSums(columns, x, 0) == Zeros(|columns|)
  {
  }

  /** c holds the columns of the matrix a with m rows and n columns. */
  ghost predicate ColumnsOf(c: Matrix, a: Matrix, m: nat, n: nat) {
    Shape(a, m, n) && |c| == n && forall i, q | 0 <= i < m && 0 <= q < n :: Item(c[q], i) == a[i][q]
  }

  /** A linear transform of the rows can be done before or after summing up columns. */
  lemma {:induction false} SumsCommute(f: Line -> Line, b: Matrix, a: Matrix, c: Matrix, d: Matrix, m: nat, n: nat, x: Complex, t: nat)
    requires Linear(f, n) && ColumnsOf(c, b, m, n + 1) && ColumnsOf(d, a, m, n + 1) && t <= m
    requires forall i | 0 <= i < m :: f(b[i]) == a[i]
    ensures f(RowOfSums(c, x, t)) == RowOfSums(d, x, t)
  {
    if t == 0 {
      NothingSummed(c, x);
      NothingSummed(d, x);
      ZeroCombined(n + 1);
      assert LinearAt(f, n, Zeros(n + 1), Zeros(n + 1), 1.0, Zeros(n + 1));
      ZeroStaysZero(f(Zeros(n + 1)));
    } else {
      SumsCommute(f, b, a, c, d, m, n, x, t - 1);
      var s := Pow(x, t - 1).re;
      var before, after := RowOfSums(c, x, t - 1), RowOfSums(c, x, t);
      RowOfSumsGrows(c, x, t - 1, b[t - 1], s, before, after);
      RowOfSumsGrows(d, x, t - 1, a[t - 1], s, RowOfSums(d, x, t - 1), RowOfSums(d, x, t));
      assert LinearAt(f, n, before, b[t - 1], s, after);
      CombinedSame(f(before), a[t - 1], s, f(after), RowOfSums(d, x, t));
    }
  }

  ghost predicate CosinesAt(g: Line -> Line, zeta: Complex, m: nat, column: Line) {
    |column| == m + 1 ==> g(column) == Cosines(column, zeta, m)
  }

  ghost predicate IsCosines(g: Line -> Line, zeta: Complex, m: nat) {
    KeepsLength(g, m) && forall column: Line :: CosinesAt(g, zeta, m, column)
  }

  /** Row i of the matrix whose columns have been transformed. */
  lemma RowOfTransformed(g: Line -> Line, zeta: Complex, m: nat, n: nat, c: Matrix, i: nat)
    requires IsCosines(g, zeta, m) && Shape(c, n + 1, m + 1) && i <= m
    ensures Transpose(OnRows(g, c), n + 1, m + 1)[i] == RowOfSums(c, Pow(zeta, i), m + 1)
  {
    var p := Transpose(OnRows(g, c), n + 1, m + 1);
    forall q: nat | q < n + 1
      ensures p[i][q] == RowOfSums(c, Pow(zeta, i), m + 1)[q]
    {
      assert CosinesAt(g, zeta, m, c[q]);
      assert At(p, i, q) == At(OnRows(g, c), q, i);
    }
  }

  lemma TransposeHasColumns(a: Matrix, m: nat, n: nat)
    requires Shape(a, m, n)
    ensures ColumnsOf(Transpose(a, m, n), a, m, n)
  {
    var c := Transpose(a, m, n);
    forall i, q | 0 <= i < m && 0 <= q < n
      ensures Item(c[q], i) == a[i][q]
    {
      assert At(c, q, i) == At(a, i, q);
    }
  }

  /** The rows of b become those of a under f; then transforming columns by g commutes with f. */
  lemma Exchanged(f: Line -> Line, g: Line -> Line, zeta: Complex, b: Matrix, a: Matrix, m: nat, n: nat)
    requires Linear(f, n) && IsCosines(g, zeta, m) && Shape(b, m + 1, n + 1) && Shape(a, m + 1, n + 1) && OnRows(f, b) == a
    ensures OnRows(f, Transpose(OnRows(g, Transpose(b, m + 1, n + 1)), n + 1, m + 1)) ==
            Transpose(OnRows(g, Transpose(a, m + 1, n + 1)), n + 1, m + 1)
  {
    var c, d := Transpose(b, m + 1, n + 1), Transpose(a, m + 1, n + 1);
    var p, q := Transpose(OnRows(g, c), n + 1, m + 1), Transpose(OnRows(g, d), n + 1, m + 1);
    TransposeHasColumns(b, m + 1, n + 1);
    TransposeHasColumns(a, m + 1, n + 1);
    forall i: nat | i < m + 1
      ensures f(p[i]) == q[i]
    {
      RowOfTransformed(g, zeta, m, n, c, i);
      RowOfTransformed(g, zeta, m, n, d, i);
      SumsCommute(f, b, a, c, d, m + 1, n, Pow(zeta, i), m + 1);
    }
    assert OnRows(f, p) == q;
  }

  lemma TransposedBack(a: Matrix, m: nat, n: nat)
    requires Shape(a, m, n)
    ensures Transpose(Transpose(a, m, n), n, m) == a
  {
    SameEntries(Transpose(Transpose(a, m, n), n, m), a, m, n);
  }

  lemma RowsKeepShape(f: Line -> Line, a: Matrix, m: nat, n: nat)
    requires KeepsLength(f, n) && Shape(a, m, n + 1)
    ensures Shape(OnRows(f, a), m, n + 1)
  {
  }

  /** The same with the parts of f and g exchanged. */
  lemma ExchangedOther(f: Line -> Line, g: Line -> Line, zeta: Complex, b: Matrix, a: Matrix, m: nat, n: nat)
    requires IsCosines(f, zeta, n) && Linear(g, m) && Shape(b, m + 1, n + 1) && Shape(a, m + 1, n + 1) && OnRows(f, b) == a
    ensures OnRows(f, Transpose(OnRows(g, Transpose(b, m + 1, n + 1)), n + 1, m + 1)) ==
            Transpose(OnRows(g, Transpose(a, m + 1, n + 1)), n + 1, m + 1)
  {
    var c := Transpose(b, m + 1, n + 1);
    var d := OnRows(g, c);
    RowsKeepShape(g, c, n + 1, m);
    Exchanged(g, f, zeta, c, d, n, m);
    TransposedBack(b, m + 1, n + 1);
    var e := OnRows(f, Transpose(d, n + 1, m + 1));
    RowsKeepShape(f, Transpose(d, n + 1, m + 1), m + 1, n);
    TransposedBack(e, m + 1, n + 1);
  }

  ghost predicate UndoesAt(f': Line -> Line, f: Line -> Line, n: nat, row: Line) {
    |row| == n + 1 ==> f'(f(row)) == row
  }

  ghost predicate Undoes(f': Line -> Line, f: Line -> Line, n: nat) {
    KeepsLength(f', n) && KeepsLength(f, n) && forall row: Line :: UndoesAt(f', f, n, row)
  }

  lemma RowsUndone(f': Line -> Line, f: Line -> Line, a: Matrix, m: nat, n: nat)
    requires Undoes(f', f, n) && Shape(a, m, n + 1)
    ensures Shape(OnRows(f, a), m, n + 1) && OnRows(f', OnRows(f, a)) == a
  {
    forall i | 0 <= i < m
      ensures f'(f(a[i])) == a[i]
    {
      assert UndoesAt(f', f, n, a[i]);
    }
  }

  /** For transforms of lines that undo each other, the transforms of the plane do so when the second
      transform of rows can be exchanged with the first of columns. */
  lemma PlaneUndone(f: Line -> Line, g: Line -> Line, f': Line -> Line, g': Line -> Line, a: Matrix, m: nat, n: nat)
    requires Undoes(f', f, n) && Undoes(g', g, m) && Shape(a, m + 1, n + 1)
    requires OnRows(f', Transpose(OnRows(g, Transpose(OnRows(f, a), m + 1, n + 1)), n + 1, m + 1)) ==
             Transpose(OnRows(g, Transpose(a, m + 1, n + 1)), n + 1, m + 1)
    ensures PlaneTransformed(f', g', PlaneTransformed(f, g, a, m, n), m, n) == a
  {
    var d := Transpose(a, m + 1, n + 1);
    RowsUndone(g', g, d, n + 1, m);
    TransposedBack(OnRows(g, d), n + 1, m + 1);
    TransposedBack(a, m + 1, n + 1);
  }

  // ---------- the cosine transforms ----------

  lemma ForwardUndoes(f': Line -> Line, f: Line -> Line, sin: real -> real, pi: real, b: nat, n: nat)
    requires Computes(f, Inverse, sin, pi, b, n) && Computes(f', Forward, sin, pi, b, n)
    ensures Undoes(f', f, n)
  {
    forall row: Line
      ensures UndoesAt(f', f, n, row)
    {
      assert ComputesAt(f, Inverse, sin, pi, b, n, row) && ComputesAt(f', Forward, sin, pi, b, n, f(row));
      if |row| == n + 1 {
        ForwardOfInverse(sin, pi, b, Root(sin, pi, b + 2), n, row);
      }
    }
  }

  lemma InverseUndoes(f': Line -> Line, f: Line -> Line, sin: real -> real, pi: real, b: nat, n: nat)
    requires Computes(f, Forward, sin, pi, b, n) && Computes(f', Inverse, sin, pi, b, n)
    ensures Undoes(f', f, n)
  {
    forall row: Line
      ensures UndoesAt(f', f, n, row)
    {
      assert ComputesAt(f, Forward, sin, pi, b, n, row) && ComputesAt(f', Inverse, sin, pi, b, n, f(row));
      if |row| == n + 1 {
        InverseOfForward(sin, pi, b, Root(sin, pi, b + 2), n, row);
      }
    }
  }

  lemma InverseIsLinear(f: Line -> Line, sin: real -> real, pi: real, b: nat, n: nat)
    requires Computes(f, Inverse, sin, pi, b, n)
    ensures Linear(f, n)
  {
    forall p: Line, q: Line, r: real, s: Line
      ensures LinearAt(f, n, p, q, r, s)
    {
      assert ComputesAt(f, Inverse, sin, pi, b, n, p) && ComputesAt(f, Inverse, sin, pi, b, n, q);
      assert ComputesAt(f, Inverse, sin, pi, b, n, s);
      if |s| == n + 1 && Combined(p, q, r, s) {
        CombinedInverse(p, q, r, s, Root(sin, pi, b + 2), n);
      }
    }
  }

  lemma ForwardIsCosines(g: Line -> Line, sin: real -> real, pi: real, b: nat, m: nat)
    requires Computes(g, Forward, sin, pi, b, m)
    ensures IsCosines(g, Root(sin, pi, b + 2), m)
  {
    var zeta := Root(sin, pi, b + 2);
    forall column: Line
      ensures CosinesAt(g, zeta, m, column)
    {
      assert ComputesAt(g, Forward, sin, pi, b, m, column);
    }
  }

  /** The inverse transform of the plane brings back what the forward transform was given. */
  lemma PlaneInverseOfForward(f: Line -> Line, g: Line -> Line, f': Line -> Line, g': Line -> Line,
      sin: real -> real, pi: real, bm: nat, bn: nat, a: Matrix, m: nat, n: nat)
    requires Computes(f, Forward, sin, pi, bn, n) && Computes(g, Forward, sin, pi, bm, m)
    requires Computes(f', Inverse, sin, pi, bn, n) && Computes(g', Inverse, sin, pi, bm, m)
    requires Shape(a, m + 1, n + 1)
    ensures PlaneTransformed(f', g', PlaneTransformed(f, g, a, m, n), m, n) == a
  {
    InverseUndoes(f', f, sin, pi, bn, n);
    InverseUndoes(g', g, sin, pi, bm, m);
    InverseIsLinear(f', sin, pi, bn, n);
    ForwardIsCosines(g, sin, pi, bm, m);
    RowsUndone(f', f, a, m + 1, n);
    Exchanged(f', g, Root(sin, pi, bm + 2), OnRows(f, a), a, m, n);
    PlaneUndone(f, g, f', g', a, m, n);
  }

  /** And the forward transform what the inverse transform was given. */
  lemma PlaneForwardOfInverse(f: Line -> Line, g: Line -> Line, f': Line -> Line, g': Line -> Line,
      sin: real -> real, pi: real, bm: nat, bn: nat, a: Matrix, m: nat, n: nat)
    requires Computes(f, Inverse, sin, pi, bn, n) && Computes(g, Inverse, sin, pi, bm, m)
    requires Computes(f', Forward, sin, pi, bn, n) && Computes(g', Forward, sin, pi, bm, m)
    requires Shape(a, m + 1, n + 1)
    ensures PlaneTransformed(f', g', PlaneTransformed(f, g, a, m, n), m, n) == a
  {
    ForwardUndoes(f', f, sin, pi, bn, n);
    ForwardUndoes(g', g, sin, pi, bm, m);
    ForwardIsCosines(f', sin, pi, bn, n);
    InverseIsLinear(g, sin, pi, bm, m);
    RowsUndone(f', f, a, m + 1, n);
    ExchangedOther(f', g, Root(sin, pi, bn + 2), OnRows(f, a), a, m, n);
    PlaneUndone(f, g, f', g', a, m, n);
  }
}
