/** `invert` applied to the output of `correlate`: it runs to the identity exactly when the columns are independent. */
module GramReduction {
  import opened Linear
  import opened Gram
  import opened GaussJordan

  /** Column weights x under which every one of the rows of a sums to zero. */
  ghost predicate Vanishes(a: Matrix, rows: nat, x: Vec, n: nat) {
    forall k: nat | k < rows :: Dot(Row(a, k), x, n) == ZERO
  }

  ghost predicate Independent(a: Matrix, rows: nat, n: nat) {
    forall x: Vec | Vanishes(a, rows, x, n) :: Trivial(x, n)
  }

  lemma GramIsHermitian(a: Matrix, rows: nat, n: nat)
    ensures Hermitian(GramMatrix(a, rows), 0, n)
  {
    forall i: nat, j: nat | i < n && j < n
      ensures GramMatrix(a, rows)(j, i) == Conj(GramMatrix(a, rows)(i, j))
    {
      GramHermitian(a, rows, i, j);
    }
  }

  lemma {:induction false} KernelQuadratic(b: Matrix, x: Vec, r: nat, n: nat)
    requires r <= n && Kernel(b, x, n)
    ensures Quadratic(b, x, r, n) == ZERO
  {
    if r > 0 {
      KernelQuadratic(b, x, r - 1, n);
      MulOne(Conj(x(r - 1)));
      hide Mul;
    }
  }

  lemma {:induction false} SquaresVanish(a: Matrix, x: Vec, n: nat, rows: nat, k: nat)
    requires SumOfSquares(a, x, n, rows) == 0.0 && k < rows
    ensures Projection(a, k, x, n) == ZERO
  {
    hide Projection, Norm2, Mul, Quadratic, GramMatrix;
    var w := Projection(a, rows - 1, x, n);
    GramPositive(a, rows - 1, x, n);
    NormPositive(w);
    if k < rows - 1 { SquaresVanish(a, x, n, rows - 1, k); }
  }

  lemma NormPositive(x: Complex)
    ensures Norm2(x) >= 0.0
    ensures x != ZERO ==> Norm2(x) > 0.0
  {
    assert Norm2(x) == Square(x.re) + Square(x.im);
    hide Norm2, Square;
    SquarePositive(x.re);
    SquarePositive(x.im);
  }

  function Square(x: real): real { x * x }

  lemma SquareInverse(x: real, z: real)
    requires z * x == 1.0
    ensures z * Square(x) == x
  {
    assert z * (x * x) == (z * x) * x;
  }

  lemma SquareSign(x: real)
    ensures Square(x) >= 0.0
  {
  }

  lemma SquarePositive(x: real)
    ensures Square(x) >= 0.0 && (x != 0.0 ==> Square(x) > 0.0)
  {
    SquareSign(x);
    hide Square;
    if x != 0.0 {
      assert 1.0 / x * x == 1.0;
      SquareInverse(x, 1.0 / x);
    }
  }

  lemma {:induction false} VanishesKernelAt(a: Matrix, rows: nat, x: Vec, n: nat, i: nat)
    requires forall k: nat | k < rows :: Projection(a, k, x, n) == ZERO
    ensures Dot(Row(GramMatrix(a, rows), i), x, n) == ZERO
  {
    hide Mul, Dot, Projection;
    if rows == 0 {
      ZeroDot(Row(GramMatrix(a, 0), i), x, n);
    } else {
      var k := rows - 1;
      VanishesKernelAt(a, k, x, n, i);
      QuadraticTerm(a, k, x, i, n);
      ProjectionConj(a, k, x, n);
      MulOne(a(k, i));
    }
  }

  /** The Gram matrix of a annihilates x exactly when a annihilates the conjugate of x. */
  lemma GramKernel(a: Matrix, rows: nat, x: Vec, n: nat)
    ensures Kernel(GramMatrix(a, rows), x, n) <==> Vanishes(a, rows, ConjVec(x), n)
  {
    hide Dot, Quadratic, SumOfSquares, GramMatrix;
    forall k: nat | k < rows
      ensures Projection(a, k, x, n) == Dot(Row(a, k), ConjVec(x), n)
    {
      DotComm(ConjVec(x), Row(a, k), n);
    }
    if Kernel(GramMatrix(a, rows), x, n) {
      KernelQuadratic(GramMatrix(a, rows), x, n, n);
      GramPositive(a, rows, x, n);
      forall k: nat | k < rows ensures Projection(a, k, x, n) == ZERO {
        SquaresVanish(a, x, n, rows, k);
      }
    }
    if Vanishes(a, rows, ConjVec(x), n) {
      forall i: nat | i < n ensures Dot(Row(GramMatrix(a, rows), i), x, n) == ZERO {
        VanishesKernelAt(a, rows, x, n, i);
      }
    }
  }

  lemma IndependentBlock(a: Matrix, rows: nat, r: nat, n: nat)
    requires r <= n && Independent(a, rows, n)
    ensures TrivialKernel(GramMatrix(a, rows), r)
  {
    hide Dot, Kernel, GramMatrix;
    forall x: Vec | Kernel(GramMatrix(a, rows), x, r) ensures Trivial(x, r) {
      GramKernel(a, rows, x, r);
      var y: Vec := (i: nat) => if i < r then Conj(x(i)) else ZERO;
      forall k: nat | k < rows ensures Dot(Row(a, k), y, n) == ZERO {
        DotPad(Row(a, k), y, r, n);
        DotSame(Row(a, k), Row(a, k), y, ConjVec(x), r);
      }
      assert Vanishes(a, rows, y, n);
      forall i: nat | i < r ensures x(i) == ZERO {
        assert y(i) == ZERO;
      }
    }
  }

  lemma ConjTwice(x: Complex)
    ensures Conj(Conj(x)) == x
  {
  }

  lemma TrivialIndependent(a: Matrix, rows: nat, n: nat)
    requires TrivialKernel(GramMatrix(a, rows), n)
    ensures Independent(a, rows, n)
  {
    hide Dot, Kernel, GramMatrix;
    forall x: Vec | Vanishes(a, rows, x, n) ensures Trivial(x, n) {
      var y := ConjVec(x);
      forall k: nat | k < rows ensures Dot(Row(a, k), ConjVec(y), n) == ZERO {
        forall j: nat | j < n ensures ConjVec(y)(j) == x(j) { ConjTwice(x(j)); }
        DotSame(Row(a, k), Row(a, k), ConjVec(y), x, n);
      }
      GramKernel(a, rows, y, n);
      forall i: nat | i < n ensures x(i) == ZERO {
        assert y(i) == ZERO;
      }
    }
  }

  /** The reduction of a Gram matrix meets no zero pivot exactly when the columns are linearly independent, and then
      ends at the identity. */
  lemma GramReducesIff(a: Matrix, rows: nat, n: nat)
    ensures Regular(GramMatrix(a, rows), n) <==> Independent(a, rows, n)
    ensures Regular(GramMatrix(a, rows), n) ==> IdentityColumns(Reduced(GramMatrix(a, rows), n), n, n)
  {
    hide *;
    var g := GramMatrix(a, rows);
    GramIsHermitian(a, rows, n);
    RegularIff(g, n);
    ReducesToIdentity(g, n);
    if Independent(a, rows, n) {
      forall r: nat | r <= n ensures TrivialKernel(g, r) {
        IndependentBlock(a, rows, r, n);
      }
    }
    if Regular(g, n) {
      TrivialIndependent(a, rows, n);
    }
  }
}
