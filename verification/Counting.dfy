/** Counting the elements of a sequence that satisfy a predicate. */
module Counting {

  function Count<T>(s: seq<T>, p: T -> bool): nat {
    if s == [] then 0
    else Count(s[..|s| - 1], p) + if p(s[|s| - 1]) then 1 else 0
  }

  lemma {:induction false} CountUpdate<T>(s: seq<T>, i: nat, x: T, p: T -> bool)
    requires i < |s|
    ensures Count(s[i := x], p) + (if p(s[i]) then 1 else 0) == Count(s, p) + (if p(x) then 1 else 0)
  {
    var n := |s| - 1;
    if i < n {
      assert s[i := x][..n] == s[..n][i := x];
      CountUpdate(s[..n], i, x, p);
    } else {
      assert s[i := x][..n] == s[..n];
    }
  }

  lemma CountAppend<T>(s: seq<T>, x: T, p: T -> bool)
    ensures Count(s + [x], p) == Count(s, p) + if p(x) then 1 else 0
  {
    assert (s + [x])[..|s|] == s;
  }

  lemma {:induction false} CountPositive<T>(s: seq<T>, p: T -> bool)
    ensures Count(s, p) > 0 <==> exists i :: 0 <= i < |s| && p(s[i])
  {
    if s != [] {
      var t := s[..|s| - 1];
      CountPositive(t, p);
      if i :| 0 <= i < |s| && p(s[i]) { assert i < |t| ==> p(t[i]); }
      if i :| 0 <= i < |t| && p(t[i]) { assert p(s[i]); }
    }
  }

  /** Element by element, whoever counts under p in s counts under q in t. */
  lemma {:induction false} CountMonotone<T, U>(s: seq<T>, p: T -> bool, t: seq<U>, q: U -> bool)
    requires |s| == |t| && forall i | 0 <= i < |s| && p(s[i]) :: q(t[i])
    ensures Count(s, p) <= Count(t, q)
  {
    if s != [] {
      var n := |s| - 1;
      assert forall i | 0 <= i < n && p(s[..n][i]) :: s[..n][i] == s[i] && t[..n][i] == t[i];
      CountMonotone(s[..n], p, t[..n], q);
    }
  }

  lemma {:induction false} CountAtMost<T>(s: seq<T>, p: T -> bool)
    ensures Count(s, p) <= |s|
  {
    if s != [] { CountAtMost(s[..|s| - 1], p); }
  }

  lemma {:induction false} CountFront<T>(s: seq<T>, p: T -> bool)
    requires s != []
    ensures Count(s, p) == (if p(s[0]) then 1 else 0) + Count(s[1..], p)
  {
    if |s| > 1 {
      CountFront(s[..|s| - 1], p);
      assert s[1..][..|s| - 2] == s[..|s| - 1][1..];
    }
  }

  lemma CountPush<T>(x: T, s: seq<T>, p: T -> bool)
    ensures Count([x] + s, p) == (if p(x) then 1 else 0) + Count(s, p)
  {
    CountFront([x] + s, p);
    assert ([x] + s)[1..] == s;
  }

  lemma CountSame<T>(s: seq<T>, t: seq<T>, p: T -> bool)
    requires |s| == |t| && forall i | 0 <= i < |s| :: p(s[i]) == p(t[i])
    ensures Count(s, p) == Count(t, p)
  {
    CountMonotone(s, p, t, p);
    CountMonotone(t, p, s, p);
  }

  function Sum<T>(s: seq<T>, f: T -> nat): nat {
    if s == [] then 0 else Sum(s[..|s| - 1], f) + f(s[|s| - 1])
  }

  lemma {:induction false} SumUpdate<T>(s: seq<T>, i: nat, x: T, f: T -> nat)
    requires i < |s|
    ensures Sum(s[i := x], f) + f(s[i]) == Sum(s, f) + f(x)
  {
    var n := |s| - 1;
    if i < n {
      assert s[i := x][..n] == s[..n][i := x];
      SumUpdate(s[..n], i, x, f);
    } else {
      assert s[i := x][..n] == s[..n];
    }
  }

  lemma SumAppend<T>(s: seq<T>, x: T, f: T -> nat)
    ensures Sum(s + [x], f) == Sum(s, f) + f(x)
  {
    assert (s + [x])[..|s|] == s;
  }

  /** The predicate of being one particular value. */
  function Is<T(==)>(v: T): T -> bool {
    x => x == v
  }

  lemma {:induction false} CountIsPositive<T>(s: seq<T>, v: T)
    ensures Count(s, Is(v)) > 0 <==> v in s
  {
    CountPositive(s, Is(v));
    if v in s {
      var i :| 0 <= i < |s| && s[i] == v;
      assert Is(v)(s[i]);
    }
  }
}
