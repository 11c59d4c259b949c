/** The matrix half of `invert` of sefdm/algorythms/test.list.152.c: what its steps compute, and when they reach the
    identity. */
module GaussJordan {
  import opened Linear

  // ---- one step ----

  /** A pivot with an imaginary part first multiplies its whole row by its conjugate. */
  function Condition(p: Complex, x: Complex): Complex {
    if p.im != 0.0 then Mul(x, Conj(p)) else x
  }

  predicate Divides(p: Complex) {
    Condition(p, p).re != 1.0
  }

  predicate ZeroDivision(p: Complex) {
    Divides(p) && p.re == 0.0
  }

  function Scale(x: Complex, d: real): Complex
    requires d != 0.0
  {
    Complex(x.re / d, x.im / d)
  }

  /** Entry x of the row of pivot p after normalization; only entries from the pivot rightwards are divided. */
  function Normalized(p: Complex, x: Complex, right: bool): Complex
    requires !ZeroDivision(p)
  {
    if right && Divides(p) then Scale(Condition(p, x), p.re) else Condition(p, x)
  }

  function PivotRow(m: Matrix, r: nat): Vec
    requires !ZeroDivision(m(r, r))
  {
    (j: nat) => Normalized(m(r, r), m(r, j), j >= r)
  }

  function Step(m: Matrix, r: nat): Matrix
    requires !ZeroDivision(m(r, r))
  {
    (i: nat, j: nat) =>
      if i == r then PivotRow(m, r)(j)
      else if j >= r then Sub(m(i, j), Mul(m(i, r), PivotRow(m, r)(j)))
      else m(i, j)
  }

  /** The new pivot row: left of the pivot it is only conditioned; from the pivot on, the real part of the old pivot
      times the new entry is the conditioned old one, unless the pivot had magnitude one and needs no division. */
  lemma PivotRowLaw(m: Matrix, r: nat, j: nat)
    requires !ZeroDivision(m(r, r))
    ensures var p, x, y := m(r, r), m(r, j), Step(m, r)(r, j);
      && (p.im == 0.0 && j < r ==> y == x)
      && (p.im == 0.0 && j >= r ==> Mul(p, y) == x)
      && (p.im != 0.0 && (j < r || Norm2(p) == 1.0) ==> y == Mul(x, Conj(p)))
      && (p.im != 0.0 && j >= r && Norm2(p) != 1.0 ==> Mul(Complex(p.re, 0.0), y) == Mul(x, Conj(p)))
  {
    var p, x := m(r, r), m(r, j);
    MulConj(p);
    if p.re != 0.0 { ScaleLaw(Condition(p, x), p.re); }
    MulOne(x);
    if p.im == 0.0 { assert p == Complex(p.re, 0.0); }
    hide Mul, Conj, Norm2, Scale;
  }

  lemma ScaleLaw(x: Complex, d: real)
    requires d != 0.0
    ensures Mul(Complex(d, 0.0), Scale(x, d)) == x
  {
    assert d * (x.re / d) == x.re && d * (x.im / d) == x.im;
  }

  /** Elsewhere nothing changes left of the pivot; from the pivot on, adding the old pivot column times the new pivot
      row gives the old matrix back. */
  lemma OtherRowsLaw(m: Matrix, r: nat, i: nat, j: nat)
    requires !ZeroDivision(m(r, r)) && i != r
    ensures j < r ==> Step(m, r)(i, j) == m(i, j)
    ensures j >= r ==> Add(Step(m, r)(i, j), Mul(m(i, r), Step(m, r)(r, j))) == m(i, j)
  {
    hide Mul, Normalized, ZeroDivision;
    SubAdd(m(i, j), Mul(m(i, r), PivotRow(m, r)(j)));
  }

  /** No division by zero occurs in the first r steps. */
  predicate Regular(m: Matrix, r: nat)
    decreases r, 0
  {
    r == 0 || (Regular(m, r - 1) && !ZeroDivision(Reduced(m, r - 1)(r - 1, r - 1)))
  }

  function Reduced(m: Matrix, r: nat): Matrix
    requires Regular(m, r)
    decreases r, 1
  {
    if r == 0 then m else Step(Reduced(m, r - 1), r - 1)
  }

  lemma ReducedStep(m: Matrix, r: nat)
    requires r > 0 && Regular(m, r)
    ensures Regular(m, r - 1) && !ZeroDivision(Reduced(m, r - 1)(r - 1, r - 1))
    ensures Reduced(m, r) == Step(Reduced(m, r - 1), r - 1)
  {
    hide ZeroDivision, Step;
  }

  lemma RegularStep(m: Matrix, r: nat)
    requires r > 0 && Regular(m, r - 1)
    ensures Regular(m, r) <==> !ZeroDivision(Reduced(m, r - 1)(r - 1, r - 1))
  {
    hide ZeroDivision, Step;
  }

  lemma {:induction false} RegularPrefix(m: Matrix, r: nat, n: nat)
    requires Regular(m, n) && r <= n
    ensures Regular(m, r)
  {
    hide ZeroDivision, Reduced;
    if r < n { RegularPrefix(m, r, n - 1); }
  }

  // ---- Hermitian input ----

  ghost predicate Hermitian(m: Matrix, r: nat, n: nat) {
    forall i: nat, j: nat | r <= i < n && r <= j < n :: m(j, i) == Conj(m(i, j))
  }

  ghost predicate IdentityColumns(m: Matrix, r: nat, n: nat) {
    forall i: nat, j: nat | i < n && j < r :: m(i, j) == if i == j then ONE else ZERO
  }

  lemma RealPivot(p: Complex)
    requires p.im == 0.0
    ensures ZeroDivision(p) <==> p == ZERO
    ensures p != ZERO ==> Normalized(p, p, true) == ONE
  {
    if p.re != 0.0 { assert p.re / p.re == 1.0; }
  }

  /** One step clears column r and keeps the block to its lower right Hermitian, so that its diagonal is real. */
  lemma StepKeeps(m: Matrix, r: nat, n: nat)
    requires r < n && IdentityColumns(m, r, n) && Hermitian(m, r, n) && !ZeroDivision(m(r, r))
    ensures IdentityColumns(Step(m, r), r + 1, n) && Hermitian(Step(m, r), r + 1, n)
    ensures m(r, r).im == 0.0
  {
    hide Mul, Conj, Normalized, ZeroDivision;
    var p, s := m(r, r), Step(m, r);
    HermitianPivot(m, r, n);
    RealPivot(p);
    forall i: nat, j: nat | i < n && j < r + 1
      ensures s(i, j) == if i == j then ONE else ZERO
    {
      assert j < r ==> m(i, j) == if i == j then ONE else ZERO;
      MulOne(m(i, r));
      NormalizedZero(p, j >= r);
    }
    forall i: nat, j: nat | r + 1 <= i < n && r + 1 <= j < n
      ensures s(j, i) == Conj(s(i, j))
    {
      assert m(j, i) == Conj(m(i, j)) && m(j, r) == Conj(m(r, j)) && m(r, i) == Conj(m(i, r));
      SchurConj(p, m(i, j), m(i, r), m(r, j));
    }
  }

  lemma HermitianPrefix(m: Matrix, n: nat, k: nat)
    requires Hermitian(m, 0, k) && n <= k
    ensures Hermitian(m, 0, n)
  {
  }

  lemma HermitianPivot(m: Matrix, r: nat, n: nat)
    requires Hermitian(m, r, n) && r < n
    ensures m(r, r).im == 0.0
  {
    assert m(r, r) == Conj(m(r, r));
  }

  lemma NormalizedZero(p: Complex, right: bool)
    requires !ZeroDivision(p)
    ensures Normalized(p, ZERO, right) == ZERO
  {
  }

  /** Normalizing by a real pivot is multiplication by its inverse. */
  lemma NormalizedReal(p: Complex, x: Complex)
    requires p.im == 0.0 && p != ZERO && !ZeroDivision(p)
    ensures Normalized(p, x, true) == Mul(Complex(1.0 / p.re, 0.0), x)
    ensures Mul(p, Normalized(p, x, true)) == x
  {
    assert x.re / p.re == 1.0 / p.re * x.re && x.im / p.re == 1.0 / p.re * x.im;
  }

  /** Conjugating x - y*z/p, for a real p, swaps the roles of row and column. */
  lemma SchurConj(p: Complex, x: Complex, y: Complex, z: Complex)
    requires p.im == 0.0 && p != ZERO && !ZeroDivision(p)
    ensures Sub(Conj(x), Mul(Conj(z), Normalized(p, Conj(y), true))) == Conj(Sub(x, Mul(y, Normalized(p, z, true))))
  {
    var q := Complex(1.0 / p.re, 0.0);
    assert Conj(q) == q;
    NormalizedReal(p, Conj(y));
    NormalizedReal(p, z);
    hide Mul, Normalized, ZeroDivision;
    calc {
      Mul(Conj(z), Mul(q, Conj(y)));
      { MulAssoc(Conj(z), q, Conj(y)); MulComm(Mul(Conj(z), q), Conj(y)); MulComm(Conj(z), q); }
      Mul(Conj(y), Mul(q, Conj(z)));
      { ConjMul(q, z); ConjMul(y, Mul(q, z)); }
      Conj(Mul(y, Mul(q, z)));
    }
  }

  lemma {:induction false} ReducedKeeps(m: Matrix, r: nat, n: nat)
    requires r <= n && Hermitian(m, 0, n) && Regular(m, r)
    ensures IdentityColumns(Reduced(m, r), r, n) && Hermitian(Reduced(m, r), r, n)
  {
    hide *;
    if r > 0 {
      ReducedStep(m, r);
      ReducedKeeps(m, r - 1, n);
      StepKeeps(Reduced(m, r - 1), r - 1, n);
    } else {
      RegularStart(m);
      NoColumns(m, n);
    }
  }

  lemma NoColumns(m: Matrix, n: nat)
    ensures IdentityColumns(m, 0, n)
  {
  }

  /** Every pivot of a Hermitian matrix is real; the loop ends at the identity unless some pivot is zero. */
  lemma {:induction false} ReducesToIdentity(m: Matrix, n: nat)
    requires Hermitian(m, 0, n)
    ensures Regular(m, n) ==> IdentityColumns(Reduced(m, n), n, n)
    ensures !Regular(m, n) ==> exists r: nat | r < n :: Regular(m, r) && Reduced(m, r)(r, r) == ZERO
  {
    hide *;
    if Regular(m, n) {
      ReducedKeeps(m, n, n);
    } else {
      assert n > 0 by { RegularStart(m); }
      HermitianPrefix(m, n - 1, n);
      ReducesToIdentity(m, n - 1);
      if Regular(m, n - 1) {
        ReducedKeeps(m, n - 1, n);
        RegularStep(m, n);
        HermitianPivot(Reduced(m, n - 1), n - 1, n);
        RealPivot(Reduced(m, n - 1)(n - 1, n - 1));
      }
    }
  }

  lemma RegularStart(m: Matrix)
    ensures Regular(m, 0) && Reduced(m, 0) == m
  {
  }

  // ---- arbitrary input ----

  /** Once pivots have imaginary parts, a pivot becomes one in exactly three cases. */
  lemma NormalizesToOne(p: Complex)
    requires !ZeroDivision(p)
    ensures Normalized(p, p, true) == ONE <==> p.im == 0.0 || Norm2(p) == 1.0 || Norm2(p) == p.re
  {
    MulConj(p);
    if p.re != 0.0 {
      assert p.re / p.re == 1.0;
      assert Norm2(p) / p.re == 1.0 <==> Norm2(p) == p.re;
    }
  }

  /** Row r keeps its pivot, and the columns up to r keep their zeros and ones, in later steps. */
  lemma {:induction false} PivotStays(m: Matrix, r: nat, n: nat)
    requires Regular(m, n) && r < n
    ensures Regular(m, r) && Regular(m, r + 1)
    ensures Reduced(m, n)(r, r) == Normalized(Reduced(m, r)(r, r), Reduced(m, r)(r, r), true)
  {
    hide ZeroDivision, Normalized, Regular, Reduced;
    RegularPrefix(m, r, n);
    RegularPrefix(m, r + 1, n);
    ReducedStep(m, n);
    if r + 1 < n { PivotStays(m, r, n - 1); }
  }

  lemma StepClears(m: Matrix, r: nat, n: nat)
    requires r < n && IdentityColumns(m, r, n) && !ZeroDivision(m(r, r)) && Normalized(m(r, r), m(r, r), true) == ONE
    ensures IdentityColumns(Step(m, r), r + 1, n)
  {
    hide Mul, ZeroDivision, Normalized;
    forall i: nat, j: nat | i < n && j < r + 1
      ensures Step(m, r)(i, j) == if i == j then ONE else ZERO
    {
      assert j < r ==> m(i, j) == if i == j then ONE else ZERO;
      MulOne(m(i, r));
      NormalizedZero(m(r, r), j >= r);
    }
  }

  ghost predicate AllNormalize(m: Matrix, n: nat)
    requires Regular(m, n)
  {
    forall r: nat | r < n :: Regular(m, r) && Unit(Reduced(m, r)(r, r))
  }

  predicate Unit(p: Complex) {
    p.im == 0.0 || Norm2(p) == 1.0 || Norm2(p) == p.re
  }

  lemma {:induction false} AllNormalizeClears(m: Matrix, r: nat, n: nat)
    requires r <= n && Regular(m, r) && AllNormalize(m, r)
    ensures IdentityColumns(Reduced(m, r), r, n)
  {
    hide ZeroDivision, Normalized, Step, Unit, Reduced, Regular;
    if r > 0 {
      var k := r - 1;
      ReducedStep(m, r);
      AllNormalizeClears(m, k, n);
      assert Unit(Reduced(m, k)(k, k));
      UnitNormalizes(Reduced(m, k)(k, k));
      StepClears(Reduced(m, k), k, n);
    }
  }

  lemma UnitNormalizes(p: Complex)
    requires !ZeroDivision(p)
    ensures Unit(p) <==> Normalized(p, p, true) == ONE
  {
    NormalizesToOne(p);
  }

  /** For any matrix on which no division by zero occurs, the result is the identity exactly when each pivot normalizes
      to one. */
  lemma IdentityIff(m: Matrix, n: nat)
    requires Regular(m, n)
    ensures IdentityColumns(Reduced(m, n), n, n) <==> AllNormalize(m, n)
  {
    hide ZeroDivision, Normalized, Step, Unit, Reduced, Regular;
    if AllNormalize(m, n) {
      AllNormalizeClears(m, n, n);
    }
    if IdentityColumns(Reduced(m, n), n, n) {
      forall r: nat | r < n
        ensures Regular(m, r) && Unit(Reduced(m, r)(r, r))
      {
        RegularPrefix(m, r, n);
        RegularPrefix(m, r + 1, n);
        RegularStep(m, r + 1);
        PivotStays(m, r, n);
        assert Reduced(m, n)(r, r) == ONE;
        assert !ZeroDivision(Reduced(m, r)(r, r));
        UnitNormalizes(Reduced(m, r)(r, r));
      }
    }
  }

  /** The matrix with the single entry 1 + i: no division by zero occurs, and the loop ends at 2. */
  lemma MissesIdentity()
    ensures var m: Matrix := (i: nat, j: nat) => Complex(1.0, 1.0);
      Regular(m, 1) && Reduced(m, 1)(0, 0) == Complex(2.0, 0.0) && !IdentityColumns(Reduced(m, 1), 1, 1)
  {
    var m: Matrix := (i: nat, j: nat) => Complex(1.0, 1.0);
    var p := Complex(1.0, 1.0);
    assert Condition(p, p) == Complex(2.0, 0.0);
    assert Regular(m, 0) && Reduced(m, 0) == m && m(0, 0) == p;
    assert Step(m, 0)(0, 0) == Normalized(p, p, true) == Complex(2.0, 0.0);
  }

  // ---- the steps are row operations ----

  ghost predicate Trivial(x: Vec, n: nat) {
    forall i: nat | i < n :: x(i) == ZERO
  }

  ghost predicate Kernel(m: Matrix, x: Vec, n: nat) {
    forall i: nat | i < n :: Dot(Row(m, i), x, n) == ZERO
  }

  ghost predicate TrivialKernel(m: Matrix, n: nat) {
    forall x: Vec | Kernel(m, x, n) :: Trivial(x, n)
  }

  /** A row of the step is the old row minus a multiple of the normalized one. */
  lemma StepRow(m: Matrix, r: nat, n: nat, i: nat, x: Vec)
    requires r < n && i < n && IdentityColumns(m, r, n)
    requires m(r, r).im == 0.0 && m(r, r) != ZERO && !ZeroDivision(m(r, r))
    ensures i != r ==>
              Dot(Row(m, i), x, n) == Add(Dot(Row(Step(m, r), i), x, n), Mul(m(i, r), Dot(PivotRow(m, r), x, n)))
    ensures Dot(Row(m, r), x, n) == Mul(m(r, r), Dot(PivotRow(m, r), x, n))
    ensures Dot(Row(Step(m, r), r), x, n) == Dot(PivotRow(m, r), x, n)
  {
    hide Mul, ZeroDivision, Normalized, Dot;
    var p, v := m(r, r), PivotRow(m, r);
    forall j: nat | j < n
      ensures Mul(p, v(j)) == m(r, j)
      ensures j < r ==> v(j) == ZERO
    {
      assert j < r ==> m(r, j) == ZERO;
      NormalizedReal(p, m(r, j));
      NormalizedZero(p, j >= r);
      MulOne(p);
    }
    if i != r {
      forall j: nat | j < n ensures m(i, j) == Add(Step(m, r)(i, j), Mul(m(i, r), v(j))) {
        MulOne(m(i, r));
        SubAdd(m(i, j), Mul(m(i, r), v(j)));
      }
      DotCombine(Row(m, i), Row(Step(m, r), i), v, m(i, r), x, n);
    }
    var zero: Vec := (j: nat) => ZERO;
    forall j: nat | j < n ensures m(r, j) == Add(zero(j), Mul(p, v(j))) {
      assert Mul(p, v(j)) == m(r, j);
    }
    DotCombine(Row(m, r), zero, v, p, x, n);
    ZeroDot(zero, x, n);
    DotSame(Row(Step(m, r), r), v, x, x, n);
  }

  lemma SubAdd(x: Complex, y: Complex)
    ensures Add(Sub(x, y), y) == x
  {
  }

  /** Hence a step changes no solution of the homogeneous system. */
  lemma StepKernel(m: Matrix, r: nat, n: nat, x: Vec)
    requires r < n && IdentityColumns(m, r, n) && Hermitian(m, r, n) && !ZeroDivision(m(r, r))
    ensures Kernel(m, x, n) <==> Kernel(Step(m, r), x, n)
  {
    hide Mul, ZeroDivision, Normalized, Dot, Conj, Step;
    var p, s, d := m(r, r), Step(m, r), Dot(PivotRow(m, r), x, n);
    StepKeeps(m, r, n);
    RealPivot(p);
    forall i: nat | i < n
      ensures i != r ==> Dot(Row(m, i), x, n) == Add(Dot(Row(s, i), x, n), Mul(m(i, r), d))
      ensures Dot(Row(m, r), x, n) == Mul(p, d) && Dot(Row(s, r), x, n) == d
    {
      StepRow(m, r, n, i, x);
    }
    MulOne(p);
    if Mul(p, d) == ZERO { NoZeroDivisors(p, d); }
    if Kernel(m, x, n) || Kernel(s, x, n) {
      assert d == ZERO by {
        if Kernel(m, x, n) { assert Dot(Row(m, r), x, n) == ZERO; } else { assert Dot(Row(s, r), x, n) == ZERO; }
      }
      forall i: nat | i < n
        ensures Dot(Row(m, i), x, n) == Dot(Row(s, i), x, n)
      {
        MulOne(m(i, r));
      }
    }
  }

  lemma NoZeroDivisors(p: Complex, d: Complex)
    requires p != ZERO && p.im == 0.0 && Mul(p, d) == ZERO
    ensures d == ZERO
  {
  }

  lemma {:induction false} ReducedKernel(m: Matrix, r: nat, n: nat, x: Vec)
    requires r <= n && Hermitian(m, 0, n) && Regular(m, r)
    ensures Kernel(m, x, n) <==> Kernel(Reduced(m, r), x, n)
  {
    hide *;
    if r > 0 {
      ReducedStep(m, r);
      ReducedKernel(m, r - 1, n, x);
      ReducedKeeps(m, r - 1, n);
      StepKernel(Reduced(m, r - 1), r - 1, n, x);
    } else {
      RegularStart(m);
    }
  }

  // ---- which Hermitian matrices reduce ----

  lemma IdentityKernel(m: Matrix, n: nat, x: Vec)
    requires IdentityColumns(m, n, n)
    ensures Kernel(m, x, n) <==> Trivial(x, n)
  {
    forall i: nat | i < n ensures Dot(Row(m, i), x, n) == x(i) {
      DotUnit(Row(m, i), x, i, n);
    }
  }

  /** At a zero pivot, column r is a combination of the identity columns before it. */
  function Relation(m: Matrix, r: nat): Vec {
    (i: nat) => if i < r then Sub(ZERO, m(i, r)) else if i == r then ONE else ZERO
  }

  lemma RelationInKernel(m: Matrix, r: nat)
    requires IdentityColumns(m, r, r + 1) && m(r, r) == ZERO
    ensures Kernel(m, Relation(m, r), r + 1)
  {
    hide Mul;
    var x := Relation(m, r);
    forall i: nat | i < r + 1 ensures Dot(Row(m, i), x, r + 1) == ZERO {
      DotUnit(Row(m, i), x, i, r);
      MulOne(m(i, r));
    }
  }

  lemma RelationNotTrivial(m: Matrix, r: nat)
    requires Kernel(m, Relation(m, r), r + 1)
    ensures !Trivial(Relation(m, r), r + 1)
  {
    hide Kernel;
    assert Relation(m, r)(r) == ONE;
  }

  lemma NotTrivialKernel(m: Matrix, x: Vec, n: nat)
    requires Kernel(m, x, n) && !Trivial(x, n)
    ensures !TrivialKernel(m, n)
  {
    hide Kernel, Trivial;
  }

  lemma ZeroPivotKernel(m: Matrix, r: nat)
    requires Hermitian(m, 0, r + 1) && Regular(m, r) && !Regular(m, r + 1)
    ensures !TrivialKernel(m, r + 1)
  {
    hide *;
    var b := Reduced(m, r);
    var x := Relation(b, r);
    ReducedKeeps(m, r, r + 1);
    RegularStep(m, r + 1);
    HermitianPivot(b, r, r + 1);
    RealPivot(b(r, r));
    RelationInKernel(b, r);
    RelationNotTrivial(b, r);
    ReducedKernel(m, r, r + 1, x);
    NotTrivialKernel(m, x, r + 1);
  }

  lemma RegularTrivialKernel(m: Matrix, n: nat)
    requires Hermitian(m, 0, n) && Regular(m, n)
    ensures TrivialKernel(m, n)
  {
    hide Kernel, Reduced, Regular, Hermitian, IdentityColumns;
    forall x: Vec | Kernel(m, x, n) ensures Trivial(x, n) {
      ReducedKeeps(m, n, n);
      ReducedKernel(m, n, n, x);
      IdentityKernel(Reduced(m, n), n, x);
    }
  }

  /** A Hermitian matrix reduces without a division by zero exactly when each of its leading blocks is nonsingular. */
  lemma {:induction false} RegularIff(m: Matrix, n: nat)
    requires Hermitian(m, 0, n)
    ensures Regular(m, n) <==> forall r: nat | r <= n :: TrivialKernel(m, r)
  {
    hide *;
    if n > 0 {
      HermitianPrefix(m, n - 1, n);
      RegularIff(m, n - 1);
      if Regular(m, n) {
        RegularPrefix(m, n - 1, n);
        RegularTrivialKernel(m, n);
      } else if Regular(m, n - 1) {
        ZeroPivotKernel(m, n - 1);
      }
    } else {
      RegularStart(m);
      RegularTrivialKernel(m, 0);
    }
  }
}
