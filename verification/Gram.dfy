/** `correlate` of sefdm/algorythms/test.list.152.c: all products of pairs of columns. */
module Gram {
  import opened Linear

  ghost predicate Agrees(t: array2<Complex>, m: Matrix)
    reads t
  {
    forall i: nat, j: nat | i < t.Length0 && j < t.Length1 :: t[i, j] == m(i, j)
  }

  /** Sum over the first `rows` rows k of a(k, i) times the conjugate of a(k, j). */
  function GramEntry(a: Matrix, rows: nat, i: nat, j: nat): Complex {
    if rows == 0 then ZERO
    else Add(GramEntry(a, rows - 1, i, j), Mul(a(rows - 1, i), Conj(a(rows - 1, j))))
  }

  function GramMatrix(a: Matrix, rows: nat): Matrix {
    (i: nat, j: nat) => GramEntry(a, rows, i, j)
  }

  method Correlate(mycarrier: array2<Complex>, ghost a: Matrix) returns (newtable: array2<Complex>)
    requires Agrees(mycarrier, a)
    ensures fresh(newtable) && newtable.Length0 == newtable.Length1 == mycarrier.Length1
    ensures Agrees(newtable, GramMatrix(a, mycarrier.Length0))
  {
    var n, rows := mycarrier.Length1, mycarrier.Length0;
    newtable := new Complex[n, n];
    for j := 0 to n
      invariant forall p: nat, q: nat | p < n && q < j :: newtable[p, q] == GramEntry(a, rows, p, q)
    {
      for i := 0 to n
        invariant forall p: nat, q: nat | p < n && q < j :: newtable[p, q] == GramEntry(a, rows, p, q)
        invariant forall p: nat | p < i :: newtable[p, j] == GramEntry(a, rows, p, j)
      {
        var realSum, imagSum := 0.0, 0.0;
        for k := 0 to rows
          invariant Complex(realSum, imagSum) == GramEntry(a, k, i, j)
        {
          var x, y := mycarrier[k, j], mycarrier[k, i];
          realSum := realSum + (x.re * y.re + x.im * y.im);
          imagSum := imagSum + (x.re * y.im - y.re * x.im);
          assert x == a(k, j) && y == a(k, i);
        }
        newtable[i, j] := Complex(realSum, imagSum);
      }
    }
  }

  lemma {:induction false} GramHermitian(a: Matrix, rows: nat, i: nat, j: nat)
    ensures GramEntry(a, rows, j, i) == Conj(GramEntry(a, rows, i, j))
  {
    if rows > 0 {
      hide Mul;
      GramHermitian(a, rows - 1, i, j);
      ConjMul(a(rows - 1, i), Conj(a(rows - 1, j)));
      MulComm(a(rows - 1, j), Conj(a(rows - 1, i)));
    }
  }

  /** The sum over i < r of conj(v(i)) times row i of b applied to v. */
  function Quadratic(b: Matrix, v: Vec, r: nat, n: nat): Complex {
    if r == 0 then ZERO
    else Add(Quadratic(b, v, r - 1, n), Mul(Conj(v(r - 1)), Dot(Row(b, r - 1), v, n)))
  }

  /** The weight v gives to row k of a. */
  function Projection(a: Matrix, k: nat, v: Vec, n: nat): Complex {
    Dot(ConjVec(v), Row(a, k), n)
  }

  function SumOfSquares(a: Matrix, v: Vec, n: nat, rows: nat): real {
    if rows == 0 then 0.0 else SumOfSquares(a, v, n, rows - 1) + Norm2(Projection(a, rows - 1, v, n))
  }

  /** One more row k of a adds a rank-one term to the quadratic form. */
  lemma {:induction false} QuadraticStep(a: Matrix, k: nat, v: Vec, r: nat, n: nat)
    ensures Quadratic(GramMatrix(a, k + 1), v, r, n)
         == Add(Quadratic(GramMatrix(a, k), v, r, n), Mul(Projection(a, k, v, r), Dot(ConjVec(Row(a, k)), v, n)))
  {
    var d := Dot(ConjVec(Row(a, k)), v, n);
    if r > 0 {
      hide Mul, Add, Dot, Conj;
      var i := r - 1;
      QuadraticStep(a, k, v, i, n);
      QuadraticTerm(a, k, v, i, n);
      RankOneTerm(Quadratic(GramMatrix(a, k), v, i, n), Projection(a, k, v, i), d,
                  Conj(v(i)), a(k, i), Dot(Row(GramMatrix(a, k), i), v, n));
      ProjectionStep(a, k, v, i);
    } else {
      assert Mul(ZERO, d) == ZERO;
    }
  }

  lemma QuadraticTerm(a: Matrix, k: nat, v: Vec, i: nat, n: nat)
    ensures Dot(Row(GramMatrix(a, k + 1), i), v, n)
         == Add(Dot(Row(GramMatrix(a, k), i), v, n), Mul(a(k, i), Dot(ConjVec(Row(a, k)), v, n)))
  {
    hide Mul, Add, Dot, Conj;
    DotCombine(Row(GramMatrix(a, k + 1), i), Row(GramMatrix(a, k), i), ConjVec(Row(a, k)), a(k, i), v, n);
  }

  lemma ProjectionStep(a: Matrix, k: nat, v: Vec, i: nat)
    ensures Projection(a, k, v, i + 1) == Add(Projection(a, k, v, i), Mul(Conj(v(i)), a(k, i)))
  {
    hide Mul, Add, Conj;
  }

  lemma RankOneTerm(q: Complex, p: Complex, d: Complex, cv: Complex, c: Complex, row: Complex)
    ensures Add(Add(q, Mul(p, d)), Mul(cv, Add(row, Mul(c, d))))
         == Add(Add(q, Mul(cv, row)), Mul(Add(p, Mul(cv, c)), d))
  {
    hide Mul;
    MulAdd(cv, row, Mul(c, d));
    MulAssoc(cv, c, d);
    MulAdd(d, p, Mul(cv, c));
  }

  /** The quadratic form of the Gram matrix is a sum of squared magnitudes, so it is real and not negative. */
  lemma {:induction false} GramPositive(a: Matrix, rows: nat, v: Vec, n: nat)
    ensures Quadratic(GramMatrix(a, rows), v, n, n) == Complex(SumOfSquares(a, v, n, rows), 0.0)
    ensures SumOfSquares(a, v, n, rows) >= 0.0
  {
    hide Mul, Dot, Conj, Quadratic, Projection, Norm2;
    if rows == 0 {
      ZeroQuadratic(a, v, n, n);
    } else {
      var k := rows - 1;
      GramPositive(a, k, v, n);
      QuadraticStep(a, k, v, n, n);
      ProjectionConj(a, k, v, n);
      MulConj(Projection(a, k, v, n));
    }
  }

  lemma ProjectionConj(a: Matrix, k: nat, v: Vec, n: nat)
    ensures Dot(ConjVec(Row(a, k)), v, n) == Conj(Projection(a, k, v, n))
  {
    hide Mul, Add, Dot;
    DotComm(ConjVec(v), Row(a, k), n);
    DotConj(Row(a, k), ConjVec(v), ConjVec(Row(a, k)), v, n);
  }

  lemma {:induction false} ZeroQuadratic(a: Matrix, v: Vec, r: nat, n: nat)
    ensures Quadratic(GramMatrix(a, 0), v, r, n) == ZERO
  {
    if r > 0 {
      ZeroQuadratic(a, v, r - 1, n);
      ZeroDot(Row(GramMatrix(a, 0), r - 1), v, n);
    }
  }

  /** In particular the diagonal is real and not negative. */
  lemma {:induction false} GramDiagonal(a: Matrix, rows: nat, i: nat)
    ensures GramEntry(a, rows, i, i).im == 0.0 && GramEntry(a, rows, i, i).re >= 0.0
  {
    if rows > 0 {
      hide Mul, Conj, Norm2;
      GramDiagonal(a, rows - 1, i);
      MulConj(a(rows - 1, i));
    }
  }

  /** The product the comment announces: the conjugate of column i times column j. */
  function HermitianProduct(a: Matrix, rows: nat, i: nat, j: nat): Complex {
    if rows == 0 then ZERO
    else Add(HermitianProduct(a, rows - 1, i, j), Mul(Conj(a(rows - 1, i)), a(rows - 1, j)))
  }

  /** What the imaginary part of entry (i, j) adds up, as a sum over the entries of the two columns. */
  function CrossSum(a: Matrix, rows: nat, i: nat, j: nat): real {
    if rows == 0 then 0.0
    else CrossSum(a, rows - 1, i, j) + (a(rows - 1, i).im * a(rows - 1, j).re - a(rows - 1, i).re * a(rows - 1, j).im)
  }

  lemma {:induction false} CrossSumIs(a: Matrix, rows: nat, i: nat, j: nat)
    ensures GramEntry(a, rows, i, j).im == CrossSum(a, rows, i, j)
  {
    if rows > 0 { CrossSumIs(a, rows - 1, i, j); }
  }

  /** What is computed is the transpose of that product, and the two differ in every entry whose columns have a cross
      sum other than zero. */
  lemma {:induction false} CommentMatchesIff(a: Matrix, rows: nat, i: nat, j: nat)
    ensures GramEntry(a, rows, i, j) == HermitianProduct(a, rows, j, i)
    ensures GramEntry(a, rows, i, j) == HermitianProduct(a, rows, i, j) <==> CrossSum(a, rows, i, j) == 0.0
  {
    ProductSwap(a, rows, i, j);
    ProductSwap(a, rows, j, i);
    GramHermitian(a, rows, i, j);
    CrossSumIs(a, rows, i, j);
  }

  /** The columns (1) and (i) of one row: entry (0, 1) is -i where the comment promises i. */
  lemma CommentFails()
    ensures var a: Matrix := (k: nat, j: nat) => if j == 0 then ONE else Complex(0.0, 1.0);
      GramEntry(a, 1, 0, 1) == Complex(0.0, -1.0) && HermitianProduct(a, 1, 0, 1) == Complex(0.0, 1.0)
  {
  }

  lemma {:induction false} ProductSwap(a: Matrix, rows: nat, i: nat, j: nat)
    ensures GramEntry(a, rows, i, j) == HermitianProduct(a, rows, j, i)
  {
    if rows > 0 {
      hide Mul;
      ProductSwap(a, rows - 1, i, j);
      MulComm(a(rows - 1, i), Conj(a(rows - 1, j)));
    }
  }
}
