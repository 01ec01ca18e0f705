/** What an entry of the two-dimensional transform is: a double sum of cosines. */
module PlaneSeries {
  import opened Matrices
  import opened CosineSums
  import opened FastCosineTransform
  import opened Angles
  import opened PlaneTransforms

  /** sum over q < t of c row[q] cos(q y) */
  ghost function WeightedSeries(c: real, row: Line, cos: real -> real, y: real, t: nat): real {
    if t == 0 then 0.0 else WeightedSeries(c, row, cos, y, t - 1) + c * Item(row, t - 1) * cos((t - 1) as real * y)
  }

  /** sum over p < s and q < t of cos(p x) a[p][q] cos(q y) */
  ghost function DoubleSeries(a: Matrix, cos: real -> real, x: real, y: real, s: nat, t: nat): real
    requires s <= |a|
  {
    if s == 0 then 0.0 else DoubleSeries(a, cos, x, y, s - 1, t) + WeightedSeries(cos((s - 1) as real * x), a[s - 1], cos, y, t)
  }

  lemma WeightedTerm(c: real, sum: real, item: real, v: real)
    ensures (sum + item * v) * c == sum * c + c * item * v
  {
  }

  lemma {:induction false} WeightOutside(c: real, row: Line, cos: real -> real, y: real, t: nat)
    ensures WeightedSeries(c, row, cos, y, t) == CosineSeries(row, cos, y, t) * c
  {
    if t > 0 {
      WeightOutside(c, row, cos, y, t - 1);
      WeightedTerm(c, CosineSeries(row, cos, y, t - 1), Item(row, t - 1), cos((t - 1) as real * y));
    }
  }

  /** column[p] is the series of row p. */
  ghost predicate RowSeries(column: Line, a: Matrix, cos: real -> real, y: real, t: nat, p: nat)
    requires p < |a|
  {
    Item(column, p) == CosineSeries(a[p], cos, y, t)
  }

  lemma {:induction false} SeriesOfSeries(column: Line, a: Matrix, cos: real -> real, x: real, y: real, s: nat, t: nat)
    requires s <= |a| && forall p: nat | p < s :: RowSeries(column, a, cos, y, t, p)
    ensures CosineSeries(column, cos, x, s) == DoubleSeries(a, cos, x, y, s, t)
  {
    if s > 0 {
      SeriesOfSeries(column, a, cos, x, y, s - 1, t);
      assert RowSeries(column, a, cos, y, t, s - 1);
      WeightOutside(cos((s - 1) as real * x), a[s - 1], cos, y, t);
    }
  }

  /** Entry k of a line transformed forward. */
  lemma LineEntry(f: Line -> Line, row: Line, sin: real -> real, cos: real -> real, pi: real, b: nat, n: nat, k: nat, y: real)
    requires Trigonometry(sin, cos, pi) && Computes(f, Forward, sin, pi, b, n) && |row| == n + 1 && k <= n
    requires n > 0 && y == k as real * (pi / n as real)
    ensures |f(row)| == n + 1 && f(row)[k] == CosineSeries(row, cos, y, n + 1)
  {
    assert ComputesAt(f, Forward, sin, pi, b, n, row);
    EntryIsSeries(row, sin, cos, pi, b, n, k, y);
  }

  /** Entry (i, k) of the forward transform is the sum over all p and q of a[p][q] cos(p x) cos(q y),
      for x = i (pi / m) and y = k (pi / n). */
  lemma PlaneEntry(f: Line -> Line, g: Line -> Line, sin: real -> real, cos: real -> real, pi: real, bm: nat, bn: nat,
      a: Matrix, m: nat, n: nat, i: nat, k: nat, x: real, y: real)
    requires Trigonometry(sin, cos, pi) && Shape(a, m + 1, n + 1) && i <= m && k <= n
    requires Computes(f, Forward, sin, pi, bn, n) && Computes(g, Forward, sin, pi, bm, m)
    requires n > 0 && m > 0 && x == i as real * (pi / m as real) && y == k as real * (pi / n as real)
    ensures At(PlaneTransformed(f, g, a, m, n), i, k) == DoubleSeries(a, cos, x, y, m + 1, n + 1)
  {
    var t, terms := Transpose(OnRows(f, a), m + 1, n + 1), n + 1;
    var column := t[k];
    forall p: nat | p < m + 1
      ensures RowSeries(column, a, cos, y, terms, p)
    {
      LineEntry(f, a[p], sin, cos, pi, bn, n, k, y);
      assert At(t, k, p) == At(OnRows(f, a), p, k);
    }
    LineEntry(g, column, sin, cos, pi, bm, m, i, x);
    SeriesOfSeries(column, a, cos, x, y, m + 1, terms);
    assert At(OnRows(g, t), k, i) == g(column)[i];
  }
}
