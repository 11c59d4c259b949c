/** Complex numbers over exact reals, and dot products of complex vectors. */
module Linear {

  datatype Complex = Complex(re: real, im: real)

  const ZERO := Complex(0.0, 0.0)
  const ONE := Complex(1.0, 0.0)

  function Add(x: Complex, y: Complex): Complex { Complex(x.re + y.re, x.im + y.im) }
  function Sub(x: Complex, y: Complex): Complex { Complex(x.re - y.re, x.im - y.im) }
  function Mul(x: Complex, y: Complex): Complex { Complex(x.re * y.re - x.im * y.im, x.re * y.im + x.im * y.re) }
  function Conj(x: Complex): Complex { Complex(x.re, -x.im) }
  function Norm2(x: Complex): real { x.re * x.re + x.im * x.im }

  type Vec = nat -> Complex
  type Matrix = (nat, nat) -> Complex

  function Row(m: Matrix, i: nat): Vec { (j: nat) => m(i, j) }
  function ConjVec(v: Vec): Vec { (i: nat) => Conj(v(i)) }

  function Dot(u: Vec, x: Vec, n: nat): Complex {
    if n == 0 then ZERO else Add(Dot(u, x, n - 1), Mul(u(n - 1), x(n - 1)))
  }

  lemma MulComm(x: Complex, y: Complex)
    ensures Mul(x, y) == Mul(y, x)
  {
  }

  lemma MulAssoc(x: Complex, y: Complex, z: Complex)
    ensures Mul(Mul(x, y), z) == Mul(x, Mul(y, z))
  {
    assert (x.re * y.re - x.im * y.im) * z.re - (x.re * y.im + x.im * y.re) * z.im
        == x.re * (y.re * z.re - y.im * z.im) - x.im * (y.re * z.im + y.im * z.re);
    assert (x.re * y.re - x.im * y.im) * z.im + (x.re * y.im + x.im * y.re) * z.re
        == x.re * (y.re * z.im + y.im * z.re) + x.im * (y.re * z.re - y.im * z.im);
  }

  lemma MulAdd(x: Complex, y: Complex, z: Complex)
    ensures Mul(x, Add(y, z)) == Add(Mul(x, y), Mul(x, z))
    ensures Mul(Add(y, z), x) == Add(Mul(y, x), Mul(z, x))
  {
  }

  lemma ConjMul(x: Complex, y: Complex)
    ensures Conj(Mul(x, y)) == Mul(Conj(x), Conj(y))
  {
  }

  lemma ConjAdd(x: Complex, y: Complex)
    ensures Conj(Add(x, y)) == Add(Conj(x), Conj(y)) && Conj(Sub(x, y)) == Sub(Conj(x), Conj(y))
  {
  }

  lemma MulConj(x: Complex)
    ensures Mul(x, Conj(x)) == Complex(Norm2(x), 0.0) && Norm2(x) >= 0.0
  {
  }

  /** How one more term extends a linear combination of two sums. */
  lemma CombineTerm(p: Complex, q: Complex, c: Complex, a: Complex, b: Complex, y: Complex)
    ensures Add(Add(p, Mul(c, q)), Mul(Add(a, Mul(c, b)), y)) == Add(Add(p, Mul(a, y)), Mul(c, Add(q, Mul(b, y))))
  {
    hide Mul;
    MulAdd(y, a, Mul(c, b));
    MulAssoc(c, b, y);
    MulAdd(c, q, Mul(b, y));
  }

  /** The dot product is linear in its first argument. */
  lemma {:induction false} DotCombine(w: Vec, u: Vec, v: Vec, c: Complex, x: Vec, n: nat)
    requires forall j: nat | j < n :: w(j) == Add(u(j), Mul(c, v(j)))
    ensures Dot(w, x, n) == Add(Dot(u, x, n), Mul(c, Dot(v, x, n)))
  {
    if n == 0 {
      assert Mul(c, ZERO) == ZERO;
    } else {
      hide Mul, Add;
      DotCombine(w, u, v, c, x, n - 1);
      CombineTerm(Dot(u, x, n - 1), Dot(v, x, n - 1), c, u(n - 1), v(n - 1), x(n - 1));
    }
  }

  lemma {:induction false} DotComm(u: Vec, x: Vec, n: nat)
    ensures Dot(u, x, n) == Dot(x, u, n)
  {
    if n > 0 {
      hide Mul, Add;
      DotComm(u, x, n - 1);
      MulComm(u(n - 1), x(n - 1));
    }
  }

  /** Conjugating both vectors, here given by their entries, conjugates the dot product. */
  lemma {:induction false} DotConj(u: Vec, x: Vec, w: Vec, y: Vec, n: nat)
    requires forall j: nat | j < n :: w(j) == Conj(u(j)) && y(j) == Conj(x(j))
    ensures Dot(w, y, n) == Conj(Dot(u, x, n))
  {
    hide Mul, Add;
    if n > 0 {
      DotConj(u, x, w, y, n - 1);
      ConjMul(u(n - 1), x(n - 1));
      ConjAdd(Dot(u, x, n - 1), Mul(u(n - 1), x(n - 1)));
    }
  }

  lemma {:induction false} ZeroDot(u: Vec, v: Vec, n: nat)
    requires forall j: nat | j < n :: u(j) == ZERO
    ensures Dot(u, v, n) == ZERO
  {
    if n > 0 { ZeroDot(u, v, n - 1); }
  }

  lemma {:induction false} DotSame(u: Vec, v: Vec, x: Vec, y: Vec, n: nat)
    requires forall j: nat | j < n :: u(j) == v(j) && x(j) == y(j)
    ensures Dot(u, x, n) == Dot(v, y, n)
  {
    hide Mul, Add;
    if n > 0 { DotSame(u, v, x, y, n - 1); }
  }

  /** Entries of zero beyond r add nothing. */
  lemma {:induction false} DotPad(u: Vec, x: Vec, r: nat, n: nat)
    requires r <= n && forall j: nat | r <= j < n :: x(j) == ZERO
    ensures Dot(u, x, n) == Dot(u, x, r)
  {
    if r < n {
      DotPad(u, x, r, n - 1);
      assert Mul(u(n - 1), ZERO) == ZERO;
    }
  }

  /** A row of the identity picks out one entry. */
  lemma {:induction false} DotUnit(u: Vec, x: Vec, i: nat, n: nat)
    requires forall j: nat | j < n :: u(j) == if i == j then ONE else ZERO
    ensures Dot(u, x, n) == if i < n then x(i) else ZERO
  {
    if n > 0 {
      DotUnit(u, x, i, n - 1);
      MulOne(x(n - 1));
      hide Mul;
    }
  }

  lemma MulOne(x: Complex)
    ensures Mul(x, ONE) == x && Mul(ONE, x) == x && Mul(x, ZERO) == ZERO && Mul(ZERO, x) == ZERO
  {
  }
}
