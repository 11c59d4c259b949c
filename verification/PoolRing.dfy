/** The circular list of all thread pools in pthreads/thr_pool.c. */
module PoolRing {
  import opened SeqEdits

  function Succ(i: nat, n: nat): nat {
    if i + 1 < n then i + 1 else 0
  }

  function Pred(i: nat, n: nat): int {
    if i > 0 then i - 1 else n - 1
  }

  /** Around the ring: one place on, from the last place to the first, and back again. */
  lemma NextAndBack(i: nat, n: nat)
    requires i < n
    ensures (i + 1 < n ==> Succ(i, n) == i + 1) && Succ(n - 1, n) == 0
    ensures Pred(Succ(i, n), n) == i && 0 <= Pred(i, n) && Succ(Pred(i, n), n) == i
  {
  }

  /** The pools created and not destroyed, in order of creation. */
  ghost function Survivors<T>(created: seq<T>, destroyed: set<T>): seq<T> {
    if created == [] then []
    else
      var z := created[|created| - 1];
      Survivors(created[..|created| - 1], destroyed) + if z in destroyed then [] else [z]
  }

  lemma {:induction false} SurvivorsIn<T>(created: seq<T>, destroyed: set<T>)
    requires forall i, j | 0 <= i < j < |created| :: created[i] != created[j]
    ensures var r := Survivors(created, destroyed);
      && (forall x :: x in r <==> x in created && x !in destroyed)
      && (forall i, j | 0 <= i < j < |r| :: r[i] != r[j])
  {
    if created != [] {
      var n := |created| - 1;
      SurvivorsIn(created[..n], destroyed);
      assert created == created[..n] + [created[n]];
      assert created[n] !in created[..n];
    }
  }

  /** Destroying a pool takes it out of the survivors and keeps the order of the others. */
  lemma {:induction false} SurvivorsDrop<T>(created: seq<T>, destroyed: set<T>, k: nat)
    requires forall i, j | 0 <= i < j < |created| :: created[i] != created[j]
    requires k < |Survivors(created, destroyed)|
    ensures Survivors(created, destroyed + {Survivors(created, destroyed)[k]})
         == Removed(Survivors(created, destroyed), k)
  {
    var n := |created| - 1;
    var z := created[n];
    var r, t := Survivors(created, destroyed), Survivors(created[..n], destroyed);
    SurvivorsIn(created[..n], destroyed);
    assert created == created[..n] + [z];
    assert z !in created[..n];
    var tail := if z in destroyed then [] else [z];
    assert r == t + tail;
    RemovedFrom(t, tail, k);
    if k < |t| {
      assert r[k] == t[k] && t[k] in t;
      hide Removed;
      SurvivorsDrop(created[..n], destroyed, k);
    } else {
      hide Removed;
      SurvivorsSame(created[..n], destroyed, z);
    }
  }

  lemma RemovedFrom<T>(t: seq<T>, w: seq<T>, k: nat)
    requires k < |t| + |w| && |w| <= 1
    ensures k < |t| ==> Removed(t + w, k) == Removed(t, k) + w
    ensures k == |t| ==> Removed(t + w, k) == t
  {
  }

  lemma {:induction false} SurvivorsSame<T>(created: seq<T>, destroyed: set<T>, x: T)
    requires x !in created
    ensures Survivors(created, destroyed + {x}) == Survivors(created, destroyed)
  {
    if created != [] {
      var n := |created| - 1;
      assert created[n] in created && forall y | y in created[..n] :: y in created;
      SurvivorsSame(created[..n], destroyed, x);
    }
  }

  /** Index i of the ring without element k, as an index of the whole ring. */
  function Skip(k: nat, i: nat): nat {
    if i < k then i else i + 1
  }

  ghost function Dropped<T>(s: seq<T>, k: nat): (t: seq<T>)
    requires k < |s|
    ensures t == Removed(s, k) && |t| == |s| - 1
    ensures forall i | 0 <= i < |t| :: Skip(k, i) < |s| && t[i] == s[Skip(k, i)] && Skip(k, i) != k
    ensures t != [] ==> t[0] == if k == 0 then s[1] else s[0]
  {
    Removed(s, k)
  }

  lemma DroppedDistinct<T>(s: seq<T>, k: nat)
    requires k < |s| && forall i, j | 0 <= i < j < |s| :: s[i] != s[j]
    ensures var t := Dropped(s, k); forall i, j | 0 <= i < j < |t| :: t[i] != t[j]
  {
  }

  lemma Around(n: nat, k: nat, i: nat)
    requires k < n && i < n - 1
    ensures var j := Skip(k, i);
      && Succ(i, n - 1) < n - 1 && 0 <= Pred(i, n - 1) < n - 1
      && Skip(k, Succ(i, n - 1)) == (if j == Pred(k, n) then Succ(k, n) else Succ(j, n))
      && Skip(k, Pred(i, n - 1)) == (if j == Succ(k, n) then Pred(k, n) else Pred(j, n))
  {
  }

  /** Links that bypass element k, read off the ring without it, are circular again. */
  lemma Relinked<T>(s: seq<T>, f: seq<T>, b: seq<T>, k: nat, t: seq<T>, i: nat)
    requires k < |s| == |f| == |b| && i < |s| - 1 && t == Dropped(s, k)
    requires forall j | 0 <= j < |s| && j != k :: f[j] == s[if j == Pred(k, |s|) then Succ(k, |s|) else Succ(j, |s|)]
    requires forall j | 0 <= j < |s| && j != k :: b[j] == s[if j == Succ(k, |s|) then Pred(k, |s|) else Pred(j, |s|)]
    ensures Succ(i, |t|) < |t| && 0 <= Pred(i, |t|) < |t| && Skip(k, i) < |s| && t[i] == s[Skip(k, i)]
    ensures f[Skip(k, i)] == t[Succ(i, |t|)] && b[Skip(k, i)] == t[Pred(i, |t|)]
  {
    Around(|s|, k, i);
  }

  lemma Ends(n: nat, k: nat)
    requires k < n
    ensures Succ(k, n) < n && 0 <= Pred(k, n) < n
    ensures n == 1 ==> Succ(k, n) == k && Pred(k, n) == k
    ensures n > 1 ==> Succ(k, n) != k && Pred(k, n) != k && Succ(0, n) == 1
    ensures forall i: nat | i < n :: Succ(i, n) < n && 0 <= Pred(i, n) < n
  {
  }

  lemma SurvivorsAdd<T>(created: seq<T>, destroyed: set<T>, x: T)
    requires x !in destroyed
    ensures Survivors(created + [x], destroyed) == Survivors(created, destroyed) + [x]
  {
    assert (created + [x])[..|created|] == created;
  }

  class PoolNode {
    var forw: PoolNode
    var back: PoolNode

    constructor ()
    {
      forw, back := this, this;
    }
  }

  class PoolList {
    var thrPools: PoolNode?
    ghost var ring: seq<PoolNode>      // from thr_pools along pool_forw
    ghost var created: seq<PoolNode>
    ghost var destroyed: set<PoolNode>

    /** forw and back run around the ring in opposite directions. */
    ghost predicate Linked()
      reads this, ring
    {
      && (forall i, j | 0 <= i < j < |ring| :: ring[i] != ring[j])
      && thrPools == (if ring == [] then null else ring[0])
      && (forall i {:trigger ring[i].forw} | 0 <= i < |ring| :: ring[i].forw == ring[Succ(i, |ring|)])
      && (forall i {:trigger ring[i].back} | 0 <= i < |ring| :: ring[i].back == ring[Pred(i, |ring|)])
    }

    ghost predicate Valid()
      reads this, ring
    {
      && Linked()
      && (forall i, j | 0 <= i < j < |created| :: created[i] != created[j])
      && (forall x | x in destroyed :: x in created)
      && ring == Survivors(created, destroyed)
    }

    constructor ()
      ensures Valid() && ring == [] && created == [] && destroyed == {}
    {
      thrPools := null;
      ring, created, destroyed := [], [], {};
    }

    /** The four stores of the insertion, between the last pool and the first. */
    method Splice(pool: PoolNode)
      requires thrPools != null && pool != thrPools && pool != thrPools.back
      modifies pool, thrPools.back`forw, thrPools`back
      ensures thrPools.back == pool && pool.forw == thrPools && pool.back == old(thrPools.back)
      ensures pool.back.forw == pool
    {
      thrPools.back.forw := pool;
      pool.forw := thrPools;
      pool.back := thrPools.back;
      thrPools.back := pool;
    }

    /** Puts the pool between the last one and the first. */
    method LinkBehind(pool: PoolNode)
      requires forall i, j | 0 <= i < j < |ring| :: ring[i] != ring[j]
      requires forall i {:trigger ring[i].forw} | 0 <= i < |ring| :: ring[i].forw == ring[Succ(i, |ring|)]
      requires forall i {:trigger ring[i].back} | 0 <= i < |ring| :: ring[i].back == ring[Pred(i, |ring|)]
      requires ring != [] && thrPools == ring[0] && pool !in ring
      modifies this`ring, pool, ring
      ensures ring == old(ring) + [pool] && thrPools == ring[0]
      ensures forall i {:trigger ring[i].forw} | 0 <= i < |ring| :: ring[i].forw == ring[Succ(i, |ring|)]
      ensures forall i {:trigger ring[i].back} | 0 <= i < |ring| :: ring[i].back == ring[Pred(i, |ring|)]
    {
      ghost var s, n := ring, |ring|;
      assert thrPools.back == s[n - 1];
      Splice(pool);
      ghost var t := s + [pool];
      forall i {:trigger t[i].forw} | 0 <= i <= n ensures t[i].forw == t[Succ(i, n + 1)] {
        if i < n - 1 {
          assert t[i] == s[i] && s[i] != s[n - 1] && s[i].forw == s[i + 1] && t[i + 1] == s[i + 1];
        } else if i == n - 1 {
          assert t[i] == s[n - 1] && t[i + 1] == pool;
        } else {
          assert t[i] == pool && t[0] == s[0];
        }
      }
      forall i {:trigger t[i].back} | 0 <= i <= n ensures t[i].back == t[Pred(i, n + 1)] {
        if i == 0 {
          assert t[i] == s[0] && t[n] == pool;
        } else if i < n {
          assert t[i] == s[i] && s[i] != s[0] && s[i].back == s[i - 1] && t[i - 1] == s[i - 1];
        } else {
          assert t[i] == pool && t[n - 1] == s[n - 1];
        }
      }
      ring := t;
    }

    /** The insertion at the end of thr_pool_create. */
    method LinkLast(pool: PoolNode)
      requires Linked() && pool !in ring
      modifies this`thrPools, this`ring, pool, ring
      ensures Linked() && ring == old(ring) + [pool]
    {
      if thrPools == null {
        pool.forw := pool;
        pool.back := pool;
        thrPools := pool;
        ring := [pool];
      } else {
        hide Succ, Pred;
        LinkBehind(pool);
      }
    }

    /** thr_pool_create; null is the EINVAL return. */
    method Create(minThreads: nat, maxThreads: nat) returns (p: PoolNode?)
      requires Valid()
      modifies this, ring
      ensures Valid()
      ensures p == null <==> minThreads > maxThreads || maxThreads < 1
      ensures p == null ==> ring == old(ring) && created == old(created) && destroyed == old(destroyed)
      ensures p != null ==> fresh(p) && ring == old(ring) + [p]
                            && created == old(created) + [p] && destroyed == old(destroyed)
    {
      hide Survivors;
      if minThreads > maxThreads || maxThreads < 1 { return null; }
      SurvivorsIn(created, destroyed);
      var pool := new PoolNode();
      SurvivorsAdd(created, destroyed, pool);
      LinkLast(pool);
      created := created + [pool];
      p := pool;
    }

    /** The neighbours of element k point past it; all other links stay. */
    method Bypass(pool: PoolNode, ghost k: nat)
      requires forall i, j | 0 <= i < j < |ring| :: ring[i] != ring[j]
      requires forall i {:trigger ring[i].forw} | 0 <= i < |ring| :: ring[i].forw == ring[Succ(i, |ring|)]
      requires forall i {:trigger ring[i].back} | 0 <= i < |ring| :: ring[i].back == ring[Pred(i, |ring|)]
      requires k < |ring| && pool == ring[k] && |ring| > 1
      modifies ring
      ensures forall j {:trigger ring[j].forw} | 0 <= j < |ring| && j != k ::
                ring[j].forw == ring[if j == Pred(k, |ring|) then Succ(k, |ring|) else Succ(j, |ring|)]
      ensures forall j {:trigger ring[j].back} | 0 <= j < |ring| && j != k ::
                ring[j].back == ring[if j == Succ(k, |ring|) then Pred(k, |ring|) else Pred(j, |ring|)]
    {
      hide Succ, Pred;
      Ends(|ring|, k);
      pool.back.forw := pool.forw;
      pool.forw.back := pool.back;
    }

    /** Takes element k out of a ring that has others. */
    method CloseGap(pool: PoolNode, ghost k: nat)
      requires forall i, j | 0 <= i < j < |ring| :: ring[i] != ring[j]
      requires forall i {:trigger ring[i].forw} | 0 <= i < |ring| :: ring[i].forw == ring[Succ(i, |ring|)]
      requires forall i {:trigger ring[i].back} | 0 <= i < |ring| :: ring[i].back == ring[Pred(i, |ring|)]
      requires k < |ring| && pool == ring[k] && |ring| > 1
      modifies this`ring, ring
      ensures ring == Dropped(old(ring), k)
      ensures forall i {:trigger ring[i].forw} | 0 <= i < |ring| :: ring[i].forw == ring[Succ(i, |ring|)]
      ensures forall i {:trigger ring[i].back} | 0 <= i < |ring| :: ring[i].back == ring[Pred(i, |ring|)]
    {
      hide Succ, Pred, Skip, Removed;
      ghost var s, n, rest := ring, |ring|, Dropped(ring, k);
      Bypass(pool, k);
      ghost var f := seq(n, i requires 0 <= i < n reads s => s[i].forw);
      ghost var b := seq(n, i requires 0 <= i < n reads s => s[i].back);
      forall i {:trigger rest[i].forw} {:trigger rest[i].back} | 0 <= i < |rest|
        ensures Succ(i, |rest|) < |rest| && rest[i].forw == rest[Succ(i, |rest|)]
        ensures 0 <= Pred(i, |rest|) < |rest| && rest[i].back == rest[Pred(i, |rest|)]
      {
        Relinked(s, f, b, k, rest, i);
      }
      ring := rest;
    }

    /** The unlinking at the end of thr_pool_destroy. */
    method Unlink(pool: PoolNode, ghost k: nat)
      requires Linked() && k < |ring| && pool == ring[k]
      modifies this`thrPools, this`ring, ring
      ensures Linked() && ring == Removed(old(ring), k)
    {
      hide Succ, Pred, Skip, Removed;
      Ends(|ring|, k);
      DroppedDistinct(ring, k);
      if thrPools == pool { thrPools := pool.forw; }
      if thrPools == pool {
        thrPools := null;
        ring := Dropped(ring, k);
      } else {
        CloseGap(pool, k);
      }
    }

    method Destroy(pool: PoolNode, ghost k: nat)
      requires Valid() && k < |ring| && pool == ring[k]
      modifies this, ring
      ensures Valid()
      ensures ring == Removed(old(ring), k) && created == old(created) && destroyed == old(destroyed) + {pool}
      ensures thrPools == null <==> ring == []
    {
      hide Survivors;
      SurvivorsDrop(created, destroyed, k);
      SurvivorsIn(created, destroyed);
      Unlink(pool, k);
      destroyed := destroyed + {pool};
    }
  }
}
