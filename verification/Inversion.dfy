/** The tables of `invert`: row and column copies, the subtrahend, and the loop that overwrites one working table. */
module Inversion {
  import opened Linear
  import opened Gram
  import opened GaussJordan
  import opened GramReduction

  method CopyRowFromTable(row: array<Complex>, mytable: array2<Complex>, r: nat)
    requires r < mytable.Length0 && row.Length == mytable.Length1
    modifies row
    ensures forall j: nat | j < row.Length :: row[j] == mytable[r, j]
  {
    for i := 0 to mytable.Length1
      invariant forall j: nat | j < i :: row[j] == mytable[r, j]
    {
      row[i] := mytable[r, i];
    }
  }

  method CopyRowToTable(mytable: array2<Complex>, row: array<Complex>, r: nat)
    requires r < mytable.Length0 && row.Length == mytable.Length1
    modifies mytable
    ensures forall i: nat, j: nat | i < mytable.Length0 && j < mytable.Length1 ::
              mytable[i, j] == if i == r then row[j] else old(mytable[i, j])
  {
    for k := 0 to mytable.Length1
      invariant forall i: nat, j: nat | i < mytable.Length0 && j < mytable.Length1 ::
                  mytable[i, j] == if i == r && j < k then row[j] else old(mytable[i, j])
    {
      mytable[r, k] := row[k];
    }
  }

  method GetColumnFromTable(mytable: array2<Complex>, c: nat) returns (column: array<Complex>)
    requires c < mytable.Length1
    ensures fresh(column) && column.Length == mytable.Length0
    ensures forall i: nat | i < column.Length :: column[i] == mytable[i, c]
  {
    column := new Complex[mytable.Length0];
    for k := 0 to mytable.Length0
      invariant forall i: nat | i < k :: column[i] == mytable[i, c]
    {
      column[k] := mytable[k, c];
    }
  }

  /** c = a - b, entry by entry, also when c is a itself. */
  method TableSub(c: array2<Complex>, a: array2<Complex>, b: array2<Complex>)
    requires c.Length0 == a.Length0 == b.Length0 && c.Length1 == a.Length1 == b.Length1 && c != b
    modifies c
    ensures forall i: nat, j: nat | i < c.Length0 && j < c.Length1 :: c[i, j] == Sub(old(a[i, j]), b[i, j])
  {
    for j := 0 to c.Length1
      invariant forall p: nat, q: nat | p < c.Length0 && q < j :: c[p, q] == Sub(old(a[p, q]), b[p, q])
      invariant forall p: nat, q: nat | p < c.Length0 && j <= q < c.Length1 :: a[p, q] == old(a[p, q])
    {
      for i := 0 to c.Length0
        invariant forall p: nat, q: nat | p < c.Length0 && q < j :: c[p, q] == Sub(old(a[p, q]), b[p, q])
        invariant forall p: nat | p < i :: c[p, j] == Sub(old(a[p, j]), b[p, j])
        invariant forall p: nat, q: nat | p < c.Length0 && j <= q < c.Length1 && (i <= p || j < q) ::
                    a[p, q] == old(a[p, q])
      {
        c[i, j] := Sub(a[i, j], b[i, j]);
      }
    }
  }

  /** Normalizes the copied pivot row in place; gives up instead of dividing by zero. */
  method NormalizePivotRow(row: array<Complex>, r: nat) returns (ok: bool)
    requires r < row.Length
    modifies row
    ensures ok == !ZeroDivision(old(row[r]))
    ensures ok ==> forall j: nat | j < row.Length :: row[j] == Normalized(old(row[r]), old(row[j]), j >= r)
  {
    hide Mul, Conj;
    var pivot := row[r];
    if pivot.im != 0.0 {
      var conj := Conj(pivot);
      for i := 0 to row.Length
        invariant forall j: nat | j < row.Length ::
                    row[j] == if j < i then Condition(pivot, old(row[j])) else old(row[j])
      {
        row[i] := Mul(row[i], conj);
      }
    }
    assert forall j: nat | j < row.Length :: row[j] == Condition(pivot, old(row[j]));
    ok := true;
    if row[r].re != 1.0 {
      if pivot.re == 0.0 { return false; }
      for i := r to row.Length
        invariant forall j: nat | j < row.Length ::
                    row[j] == if r <= j < i then Scale(Condition(pivot, old(row[j])), pivot.re)
                              else Condition(pivot, old(row[j]))
      {
        var imag := 0.0;
        if row[i].im != 0.0 { imag := row[i].im / pivot.re; }
        row[i] := Complex(row[i].re / pivot.re, imag);
      }
    }
  }

  /** The products to subtract: nothing left of the pivot column, nothing in the pivot row. */
  method Subtrahend(subtr: array2<Complex>, column: array<Complex>, row: array<Complex>, r: nat)
    requires subtr.Length0 == column.Length && subtr.Length1 == row.Length && r <= subtr.Length1
    modifies subtr
    ensures forall i: nat, j: nat | i < subtr.Length0 && j < subtr.Length1 ::
              subtr[i, j] == if i == r || j < r then ZERO else Mul(column[i], row[j])
  {
    hide Mul;
    for j := 0 to r
      invariant forall p: nat, q: nat | p < subtr.Length0 && q < j :: subtr[p, q] == ZERO
    {
      for i := 0 to subtr.Length0
        invariant forall p: nat, q: nat | p < subtr.Length0 && q < j :: subtr[p, q] == ZERO
        invariant forall p: nat | p < i :: subtr[p, j] == ZERO
      {
        subtr[i, j] := ZERO;
      }
    }
    for j := r to subtr.Length1
      invariant forall p: nat, q: nat | p < subtr.Length0 && q < j ::
                  subtr[p, q] == if p == r || q < r then ZERO else Mul(column[p], row[q])
    {
      for i := 0 to subtr.Length0
        invariant forall p: nat, q: nat | p < subtr.Length0 && q < j ::
                    subtr[p, q] == if p == r || q < r then ZERO else Mul(column[p], row[q])
        invariant forall p: nat | p < i :: subtr[p, j] == if p == r then ZERO else Mul(column[p], row[j])
      {
        subtr[i, j] := if i != r then Mul(column[i], row[j]) else ZERO;
      }
    }
  }

  /** What the subtraction leaves of the pivot row, of the columns left of the pivot, and of the rest. */
  lemma StepEntry(m: Matrix, r: nat, i: nat, j: nat)
    requires !ZeroDivision(m(r, r))
    ensures i == r ==> Step(m, r)(i, j) == Sub(PivotRow(m, r)(j), ZERO)
    ensures i != r && j < r ==> Step(m, r)(i, j) == Sub(m(i, j), ZERO)
    ensures i != r && j >= r ==> Step(m, r)(i, j) == Sub(m(i, j), Mul(m(i, r), PivotRow(m, r)(j)))
  {
    hide Mul, Normalized, ZeroDivision;
  }

  /** One pass of the loop over tables a and aprime, which are the same table in all passes but the first. */
  method Pass(a: array2<Complex>, aprime: array2<Complex>, subtr: array2<Complex>, row: array<Complex>, r: nat,
              ghost m: Matrix)
    returns (ok: bool)
    requires r < row.Length == a.Length0 == a.Length1 == aprime.Length0 == aprime.Length1
    requires row.Length == subtr.Length0 == subtr.Length1
    requires a != subtr && aprime != subtr && Agrees(a, m)
    modifies a, aprime, subtr, row
    ensures ok == !ZeroDivision(m(r, r))
    ensures ok ==> Agrees(aprime, Step(m, r))
  {
    hide Mul, Conj, Normalized, ZeroDivision, Step, Sub;
    CopyRowFromTable(row, a, r);
    ok := NormalizePivotRow(row, r);
    if ok {
      CopyRowToTable(a, row, r);
      assert forall j: nat | j < row.Length :: row[j] == PivotRow(m, r)(j);
      var column := GetColumnFromTable(a, r);
      Subtrahend(subtr, column, row, r);
      TableSub(aprime, a, subtr);
      forall i: nat, j: nat | i < a.Length0 && j < a.Length1
        ensures aprime[i, j] == Step(m, r)(i, j)
      {
        StepEntry(m, r, i, j);
      }
    }
  }

  method CopyTable(mytable: array2<Complex>) returns (a: array2<Complex>)
    ensures fresh(a) && a.Length0 == mytable.Length0 && a.Length1 == mytable.Length1
    ensures forall i: nat, j: nat | i < a.Length0 && j < a.Length1 :: a[i, j] == mytable[i, j]
  {
    a := new Complex[mytable.Length0, mytable.Length1];
    for j := 0 to mytable.Length1
      invariant forall p: nat, q: nat | p < a.Length0 && q < j :: a[p, q] == mytable[p, q]
    {
      for i := 0 to mytable.Length0
        invariant forall p: nat, q: nat | p < a.Length0 && q < j :: a[p, q] == mytable[p, q]
        invariant forall p: nat | p < i :: a[p, j] == mytable[p, j]
      {
        a[i, j] := mytable[i, j];
      }
    }
  }

  /**
   * The loop. The first pass works on a copy of the input and leaves its result in a second table; from then
   * on that table is both operand and result. It fails exactly when a division by zero is due.
   */
  method Reduce(mytable: array2<Complex>, ghost m: Matrix) returns (a: array2<Complex>, ok: bool)
    requires mytable.Length0 == mytable.Length1 && Agrees(mytable, m)
    ensures fresh(a) && a.Length0 == a.Length1 == mytable.Length0
    ensures ok == Regular(m, mytable.Length0)
    ensures ok ==> Agrees(a, Reduced(m, mytable.Length0))
  {
    hide Mul, Conj, Normalized, ZeroDivision;
    var n := mytable.Length0;
    a := CopyTable(mytable);
    var subtr := new Complex[n, n];
    var row := new Complex[n];
    var aprime := new Complex[n, n];
    for r := 0 to n
      invariant fresh(a) && a.Length0 == a.Length1 == n && a != subtr
      invariant Regular(m, r) && Agrees(a, Reduced(m, r))
    {
      hide Reduced;
      ok := Pass(a, aprime, subtr, row, r, Reduced(m, r));
      if !ok {
        if Regular(m, n) { RegularPrefix(m, r + 1, n); }
        return;
      }
      ReducedStep(m, r + 1);
      a := aprime;
    }
    ok := true;
  }

  /** `correlate` followed by the matrix half of `invert`: it succeeds exactly on independent columns, and then returns
      the identity. */
  method CorrelateAndReduce(mycarrier: array2<Complex>, ghost a: Matrix) returns (result: array2<Complex>, ok: bool)
    requires Agrees(mycarrier, a)
    ensures result.Length0 == result.Length1 == mycarrier.Length1
    ensures ok <==> Independent(a, mycarrier.Length0, mycarrier.Length1)
    ensures ok ==> forall i: nat, j: nat | i < result.Length0 && j < result.Length1 ::
                     result[i, j] == if i == j then ONE else ZERO
  {
    ghost var rows, n := mycarrier.Length0, mycarrier.Length1;
    var product := Correlate(mycarrier, a);
    GramReducesIff(a, rows, n);
    hide Regular, Reduced, Independent, GramMatrix;
    result, ok := Reduce(product, GramMatrix(a, rows));
  }
}
