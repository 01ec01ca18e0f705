/** The two-dimensional cosine transform with columns copied out, against the one that transposes
    the matrix in place. */
module PlaneTransforms {
  import opened Matrices
  import opened Powers
  import opened FourierValues
  import opened FastCosineTransform

  type Line = seq<real>

  ghost predicate KeepsLength(f: Line -> Line, n: nat) {
    forall row: Line {:trigger f(row)} :: |row| == n + 1 ==> |f(row)| == n + 1
  }

  /** For sizes and sines that the in-place transform is made for, f does on a row what it does. */
  ghost predicate ComputesAt(f: Line -> Line, transformType: TransformType, sin: real -> real, pi: real, b: nat, n: nat, row: Line) {
    && n == 2 * Power2(b) && ExactSine(sin, pi)
    && (|row| == n + 1 ==> f(row) == CosineTransformed(row, transformType, Root(sin, pi, b + 2), n))
  }

  /** f is the one-dimensional transform of n + 1 numbers. */
  ghost predicate Computes(f: Line -> Line, transformType: TransformType, sin: real -> real, pi: real, b: nat, n: nat) {
    KeepsLength(f, n) && forall row: Line :: ComputesAt(f, transformType, sin, pi, b, n, row)
  }

  ghost function OnRows(f: Line -> Line, a: Matrix): (b: Matrix)
    ensures |b| == |a| && forall i | 0 <= i < |a| :: b[i] == f(a[i])
  {
    seq(|a|, i requires 0 <= i < |a| => f(a[i]))
  }

  /** Transform every row by f, then every column by g. */
  ghost function PlaneTransformed(f: Line -> Line, g: Line -> Line, a: Matrix, m: nat, n: nat): Matrix {
    Transpose(OnRows(g, Transpose(OnRows(f, a), m + 1, n + 1)), n + 1, m + 1)
  }

  method CopyOf(line: Line) returns (data: array<real>)
    ensures fresh(data) && data[..] == line
  {
    data := new real[|line|](i requires 0 <= i < |line| => line[i]);
  }

  /** The one-dimensional transform on a copy of a line. */
  method TransformLine(n: nat, line: Line, transformType: TransformType, sin: real -> real, pi: real, ghost b: nat,
      ghost f: Line -> Line) returns (r: Line)
    requires |line| == n + 1 && Computes(f, transformType, sin, pi, b, n)
    ensures r == f(line)
  {
    assert ComputesAt(f, transformType, sin, pi, b, n, line);
    var data := CopyOf(line);
    Cosfft1(n, data, transformType, sin, pi, b);
    r := data[..];
  }

  ghost predicate Contains(data: array2<real>, a: Matrix)
    reads data
  {
    Shape(a, data.Length0, data.Length1) && Holds(data, a, data.Length0, data.Length1)
  }

  method ReadRow(data: array2<real>, i: nat, ghost a: Matrix) returns (row: Line)
    requires i < data.Length0 && Contains(data, a)
    ensures row == a[i]
  {
    row := [];
    for j := 0 to data.Length1
      invariant |row| == j && row == a[i][..j]
    {
      assert data[i, j] == At(a, i, j);
      row := row + [data[i, j]];
    }
  }

  method WriteRow(data: array2<real>, i: nat, row: Line, ghost a: Matrix)
    requires i < data.Length0 && |row| == data.Length1 && Contains(data, a)
    modifies data
    ensures Contains(data, a[i := row])
  {
    for j := 0 to data.Length1
      invariant forall p, q | 0 <= p < data.Length0 && 0 <= q < data.Length1 ::
        data[p, q] == if p == i && q < j then row[q] else At(a, p, q)
    {
      data[i, j] := row[j];
    }
  }

  method ReadColumn(data: array2<real>, j: nat, ghost a: Matrix) returns (col: Line)
    requires j < data.Length1 && Contains(data, a)
    ensures col == Transpose(a, data.Length0, data.Length1)[j]
  {
    col := [];
    ghost var t := Transpose(a, data.Length0, data.Length1);
    for i := 0 to data.Length0
      invariant |col| == i && col == t[j][..i]
    {
      assert data[i, j] == At(a, i, j) == At(t, j, i);
      col := col + [data[i, j]];
    }
  }

  method WriteColumn(data: array2<real>, j: nat, col: Line, ghost t: Matrix)
    requires j < data.Length1 && |col| == data.Length0 && Shape(t, data.Length1, data.Length0)
    requires Contains(data, Transpose(t, data.Length1, data.Length0))
    modifies data
    ensures Contains(data, Transpose(t[j := col], data.Length1, data.Length0))
  {
    ghost var a := Transpose(t, data.Length1, data.Length0);
    for i := 0 to data.Length0
      invariant forall p, q | 0 <= p < data.Length0 && 0 <= q < data.Length1 ::
        data[p, q] == if q == j && p < i then col[p] else At(a, p, q)
    {
      data[i, j] := col[i];
    }
  }

  /** The first rows transformed, the others not yet. */
  ghost function Partly(f: Line -> Line, a: Matrix, k: nat): (b: Matrix)
    ensures |b| == |a| && forall i | 0 <= i < |a| :: b[i] == if i < k then f(a[i]) else a[i]
  {
    seq(|a|, i requires 0 <= i < |a| => if i < k then f(a[i]) else a[i])
  }

  lemma PartlyMore(f: Line -> Line, a: Matrix, k: nat)
    requires k < |a|
    ensures Partly(f, a, k)[k := f(a[k])] == Partly(f, a, k + 1)
  {
  }

  lemma PartlyEnds(f: Line -> Line, a: Matrix)
    ensures Partly(f, a, 0) == a && Partly(f, a, |a|) == OnRows(f, a)
  {
  }

  method TransformRows(n: nat, data: array2<real>, transformType: TransformType, sin: real -> real, pi: real,
      ghost b: nat, ghost f: Line -> Line, ghost a: Matrix)
    requires data.Length1 == n + 1 && Contains(data, a) && Computes(f, transformType, sin, pi, b, n)
    modifies data
    ensures Contains(data, OnRows(f, a))
  {
    PartlyEnds(f, a);
    for i := 0 to data.Length0
      invariant Contains(data, Partly(f, a, i))
    {
      var row := ReadRow(data, i, Partly(f, a, i));
      row := TransformLine(n, row, transformType, sin, pi, b, f);
      WriteRow(data, i, row, Partly(f, a, i));
      PartlyMore(f, a, i);
    }
  }

  method TransformColumns(m: nat, data: array2<real>, transformType: TransformType, sin: real -> real, pi: real,
      ghost b: nat, ghost f: Line -> Line, ghost a: Matrix)
    requires data.Length0 == m + 1 && Shape(a, data.Length1, data.Length0)
    requires Contains(data, Transpose(a, data.Length1, data.Length0)) && Computes(f, transformType, sin, pi, b, m)
    modifies data
    ensures Contains(data, Transpose(OnRows(f, a), data.Length1, data.Length0))
  {
    PartlyEnds(f, a);
    for j := 0 to data.Length1
      invariant Contains(data, Transpose(Partly(f, a, j), data.Length1, data.Length0))
    {
      ghost var now := Partly(f, a, j);
      var col := ReadColumn(data, j, Transpose(now, data.Length1, data.Length0));
      SameEntries(Transpose(Transpose(now, data.Length1, data.Length0), data.Length0, data.Length1), now, data.Length1, data.Length0);
      col := TransformLine(m, col, transformType, sin, pi, b, f);
      WriteColumn(data, j, col, now);
      PartlyMore(f, a, j);
    }
  }

  lemma BackAgain(data: array2<real>, a: Matrix, t: Matrix, m: nat, n: nat)
    requires data.Length0 == m && data.Length1 == n && Contains(data, a) && t == Transpose(a, m, n)
    ensures Contains(data, Transpose(t, n, m)) && Shape(t, n, m)
  {
    SameEntries(Transpose(t, n, m), a, m, n);
  }

  /** The transform with columns copied out and back; f and g are the one-dimensional transforms of
      the two lengths. */
  method Cft2(m: nat, n: nat, data: array2<real>, transformType: TransformType, sin: real -> real, pi: real,
      ghost bm: nat, ghost bn: nat, ghost f: Line -> Line, ghost g: Line -> Line, ghost a: Matrix)
    requires Computes(f, transformType, sin, pi, bn, n) && Computes(g, transformType, sin, pi, bm, m)
    requires data.Length0 == m + 1 && data.Length1 == n + 1 && Contains(data, a)
    modifies data
    ensures Contains(data, PlaneTransformed(f, g, a, m, n))
  {
    TransformRows(n, data, transformType, sin, pi, bn, f, a);
    ghost var t := Transpose(OnRows(f, a), m + 1, n + 1);
    BackAgain(data, OnRows(f, a), t, m + 1, n + 1);
    TransformColumns(m, data, transformType, sin, pi, bm, g, t);
  }

  /** A matrix that owns its storage, so that transposing it may change its shape. */
  class RowMatrix {
    var cells: array2<real>

    constructor (cells: array2<real>)
      ensures this.cells == cells
    {
      this.cells := cells;
    }

    method TransposeInPlace(ghost a: Matrix)
      requires Contains(cells, a)
      modifies this
      ensures fresh(cells) && cells.Length0 == old(cells.Length1) && cells.Length1 == old(cells.Length0)
      ensures Contains(cells, Transpose(a, old(cells.Length0), old(cells.Length1)))
    {
      var source := cells;
      cells := new real[source.Length1, source.Length0]((i, j) reads source requires 0 <= i < source.Length1 && 0 <= j < source.Length0 => source[j, i]);
    }

    /** The transform with the matrix transposed, and transposed back: the same result. */
    method Cft2WithTranspose(m: nat, n: nat, transformType: TransformType, sin: real -> real, pi: real,
        ghost bm: nat, ghost bn: nat, ghost f: Line -> Line, ghost g: Line -> Line, ghost a: Matrix)
      requires Computes(f, transformType, sin, pi, bn, n) && Computes(g, transformType, sin, pi, bm, m)
      requires cells.Length0 == m + 1 && cells.Length1 == n + 1 && Contains(cells, a)
      modifies this, cells
      ensures cells.Length0 == m + 1 && cells.Length1 == n + 1 && Contains(cells, PlaneTransformed(f, g, a, m, n))
    {
      TransformRows(n, cells, transformType, sin, pi, bn, f, a);
      TransposeInPlace(OnRows(f, a));
      TransformRows(m, cells, transformType, sin, pi, bm, g, Transpose(OnRows(f, a), m + 1, n + 1));
      TransposeInPlace(OnRows(g, Transpose(OnRows(f, a), m + 1, n + 1)));
    }
  }
}
