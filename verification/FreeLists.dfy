/** Address-ordered lists of free blocks and the set of units (clicks or pages) they stand for.
    Both allocators of minix/alloc.c keep such a list: the hole table and the page ranges. */
module FreeLists {
  import opened SeqEdits

  datatype Block = Block(base: nat, len: nat)

  function End(b: Block): nat {
    b.base + b.len
  }

  predicate In(b: Block, c: nat) {
    b.base <= c < End(b)
  }

  ghost function Units(b: Block): (s: set<nat>)
    ensures forall c :: c in s <==> In(b, c)
  {
    set c: nat | b.base <= c < End(b) && In(b, c)
  }

  /** Sorted, no empty block, and no two blocks that touch. */
  predicate Canonical(bs: seq<Block>) {
    && (forall i | 0 <= i < |bs| :: bs[i].len > 0)
    && (forall i, j | 0 <= i < j < |bs| :: End(bs[i]) < bs[j].base)
  }

  ghost predicate Covered(bs: seq<Block>, c: nat) {
    exists i :: 0 <= i < |bs| && In(bs[i], c)
  }

  ghost function FreeSet(bs: seq<Block>): (s: set<nat>)
    ensures forall c :: c in s <==> Covered(bs, c)
  {
    set i: nat, c: nat | 0 <= i < |bs| && bs[i].base <= c < End(bs[i]) && In(bs[i], c) :: c
  }

  function Total(bs: seq<Block>): nat {
    if bs == [] then 0 else bs[0].len + Total(bs[1..])
  }

  /** The block [c, c + n) lies inside one of the listed blocks. */
  ghost predicate Fits(bs: seq<Block>, c: nat, n: nat) {
    exists i :: 0 <= i < |bs| && bs[i].base <= c && c + n <= End(bs[i])
  }

  ghost predicate LowestFit(bs: seq<Block>, c: nat, n: nat) {
    Fits(bs, c, n) && forall d: nat | Fits(bs, d, n) :: c <= d
  }

  /** `after` is the canonical list of `before` with block b taken out. */
  ghost predicate Took(before: seq<Block>, b: Block, after: seq<Block>) {
    && Canonical(after)
    && Units(b) <= FreeSet(before)
    && FreeSet(after) == FreeSet(before) - Units(b)
  }

  /** `after` is the canonical list of `before` with block b put back. */
  ghost predicate Gave(before: seq<Block>, b: Block, after: seq<Block>) {
    && Canonical(after)
    && Units(b) !! FreeSet(before)
    && FreeSet(after) == FreeSet(before) + Units(b)
  }

  lemma CoveredSplit(bs: seq<Block>, c: nat)
    requires bs != []
    ensures Covered(bs, c) <==> In(bs[0], c) || Covered(bs[1..], c)
  {
    if Covered(bs[1..], c) {
      var i :| 0 <= i < |bs[1..]| && In(bs[1..][i], c);
      assert In(bs[i + 1], c);
    }
  }

  lemma CanonicalTail(bs: seq<Block>)
    requires Canonical(bs) && bs != []
    ensures Canonical(bs[1..])
    ensures FreeSet(bs) == Units(bs[0]) + FreeSet(bs[1..])
    ensures forall c | c in FreeSet(bs[1..]) :: End(bs[0]) < c
  {
    forall c | c in FreeSet(bs[1..]) ensures End(bs[0]) < c {
      var i :| 0 <= i < |bs[1..]| && In(bs[1..][i], c);
      assert bs[1..][i] == bs[i + 1];
    }
  }

  /** A canonical list is determined by the set it stands for. */
  lemma {:induction false} CanonicalUnique(a: seq<Block>, b: seq<Block>)
    requires Canonical(a) && Canonical(b) && FreeSet(a) == FreeSet(b)
    ensures a == b
    decreases |a|
  {
    assert a != [] ==> In(a[0], a[0].base) && a[0].base in FreeSet(a);
    assert b != [] ==> In(b[0], b[0].base) && b[0].base in FreeSet(b);
    if a != [] {
      CanonicalTail(a);
      CanonicalTail(b);
      HeadNotAfter(a, b);
      HeadNotAfter(b, a);
      assert FreeSet(a[1..]) == FreeSet(b[1..]);
      CanonicalUnique(a[1..], b[1..]);
    }
  }

  lemma HeadNotAfter(a: seq<Block>, b: seq<Block>)
    requires Canonical(a) && Canonical(b) && FreeSet(a) == FreeSet(b) && a != [] && b != []
    ensures a[0].base <= b[0].base
    ensures a[0].base == b[0].base ==> End(a[0]) <= End(b[0])
  {
    CanonicalTail(a);
    CanonicalTail(b);
    assert In(b[0], b[0].base) && b[0].base in FreeSet(b);
    EndNotFree(b, 0);
    var e := End(b[0]);
    assert In(a[0], e) ==> e in FreeSet(a);
  }

  /** Each listed block ends at a unit that is not free. */
  lemma EndNotFree(bs: seq<Block>, i: nat)
    requires Canonical(bs) && i < |bs|
    ensures End(bs[i]) !in FreeSet(bs)
  {
    forall j | 0 <= j < |bs| ensures !In(bs[j], End(bs[i])) {}
  }

  /** In a canonical list a free run of n > 0 units never spans two blocks. */
  lemma FitsIffFree(bs: seq<Block>, c: nat, n: nat)
    requires Canonical(bs) && n > 0
    ensures Fits(bs, c, n) <==> Units(Block(c, n)) <= FreeSet(bs)
  {
    if Fits(bs, c, n) {
      var i :| 0 <= i < |bs| && bs[i].base <= c && c + n <= End(bs[i]);
      assert forall u | u in Units(Block(c, n)) :: In(bs[i], u);
    }
    if Units(Block(c, n)) <= FreeSet(bs) {
      assert c in Units(Block(c, n));
      var i :| 0 <= i < |bs| && In(bs[i], c);
      EndNotFree(bs, i);
      assert End(bs[i]) !in Units(Block(c, n));
    }
  }

  lemma {:induction false} UnitsCount(b: Block)
    ensures |Units(b)| == b.len
    decreases b.len
  {
    if b.len > 0 {
      var front := Block(b.base, b.len - 1);
      UnitsCount(front);
      assert Units(b) == Units(front) + {End(front)};
    } else {
      assert Units(b) == {};
    }
  }

  /** The accounting of memstats: the lengths of a canonical list add up to the number of free units. */
  lemma {:induction false} TotalIsCount(bs: seq<Block>)
    requires Canonical(bs)
    ensures Total(bs) == |FreeSet(bs)|
  {
    if bs != [] {
      CanonicalTail(bs);
      TotalIsCount(bs[1..]);
      UnitsCount(bs[0]);
      assert Units(bs[0]) !! FreeSet(bs[1..]);
    }
  }

  lemma TookTotal(before: seq<Block>, b: Block, after: seq<Block>)
    requires Canonical(before) && Took(before, b, after)
    ensures Total(before) == Total(after) + b.len
  {
    TotalIsCount(before);
    TotalIsCount(after);
    UnitsCount(b);
    hide FreeSet, Units, Canonical, Total;
    CountSplit(FreeSet(before), Units(b));
  }

  lemma CountSplit(whole: set<nat>, part: set<nat>)
    requires part <= whole
    ensures |whole| == |whole - part| + |part|
  {
    assert whole == (whole - part) + part;
  }

  lemma GaveTotal(before: seq<Block>, b: Block, after: seq<Block>)
    requires Canonical(before) && Gave(before, b, after)
    ensures Total(after) == Total(before) + b.len
  {
    TotalIsCount(before);
    TotalIsCount(after);
    UnitsCount(b);
  }

  // ---- lists of disjoint blocks in any order ----

  ghost predicate Disjoint(bs: seq<Block>) {
    forall i, j | 0 <= i < j < |bs| :: Units(bs[i]) !! Units(bs[j])
  }

  lemma DisjointFrom(bs: seq<Block>, b: Block)
    ensures Units(b) !! FreeSet(bs) <==> forall i | 0 <= i < |bs| :: Units(bs[i]) !! Units(b)
  {
    hide In;
    if Units(b) !! FreeSet(bs) {
      forall i | 0 <= i < |bs| ensures Units(bs[i]) !! Units(b) {
        forall c | c in Units(bs[i]) ensures c !in Units(b) { assert In(bs[i], c); }
      }
    }
  }

  lemma AddUsed(used: seq<Block>, k: nat, b: Block)
    requires Disjoint(used) && k <= |used| && Units(b) !! FreeSet(used)
    ensures Disjoint(Inserted(used, k, b)) && FreeSet(Inserted(used, k, b)) == FreeSet(used) + Units(b)
  {
    InsertSet(used, k, b);
    DisjointFrom(used, b);
    hide FreeSet, Units;
  }

  lemma DropUsed(used: seq<Block>, k: nat)
    requires Disjoint(used) && k < |used|
    ensures Disjoint(Removed(used, k)) && FreeSet(Removed(used, k)) == FreeSet(used) - Units(used[k])
    ensures Units(used[k]) <= FreeSet(used)
  {
    hide FreeSet, Units, Covered, In;
    var r := Removed(used, k);
    InsertSet(r, k, used[k]);
    assert Inserted(r, k, used[k]) == used;
    DisjointFrom(r, used[k]);
  }

  // ---- list edits used by both allocators ----

  /** Blocks k and k + 1 replaced by their union. */
  function Joined(bs: seq<Block>, k: nat): seq<Block>
    requires k + 1 < |bs|
  {
    Removed(bs[k := Block(bs[k].base, bs[k].len + bs[k + 1].len)], k + 1)
  }

  /** Sorted, without empty or overlapping blocks; blocks i and i + 1 may touch only when lo <= i < hi. */
  predicate Loose(bs: seq<Block>, lo: nat, hi: nat) {
    && (forall i | 0 <= i < |bs| :: bs[i].len > 0)
    && (forall i, j | 0 <= i < j < |bs| :: End(bs[i]) <= bs[j].base)
    && (forall i, j | 0 <= i < j < |bs| && !(lo <= i < hi && j == i + 1) :: End(bs[i]) < bs[j].base)
  }

  lemma InsertSet(bs: seq<Block>, p: nat, b: Block)
    requires p <= |bs|
    ensures FreeSet(Inserted(bs, p, b)) == FreeSet(bs) + Units(b)
  {
    var r := Inserted(bs, p, b);
    forall c: nat ensures c in FreeSet(r) <==> c in FreeSet(bs) || In(b, c) {
      if Covered(r, c) {
        var i :| 0 <= i < |r| && In(r[i], c);
        assert i == p || In(bs[if i < p then i else i - 1], c);
      }
      if Covered(bs, c) {
        var i :| 0 <= i < |bs| && In(bs[i], c);
        assert In(r[if i < p then i else i + 1], c);
      }
      assert In(r[p], c) <==> In(b, c);
    }
  }

  lemma InsertKeeps(bs: seq<Block>, p: nat, b: Block)
    requires Canonical(bs) && p <= |bs| && b.len > 0 && Units(b) !! FreeSet(bs)
    requires forall i | 0 <= i < p :: bs[i].base < b.base
    requires forall i | p <= i < |bs| :: b.base <= bs[i].base
    ensures Loose(Inserted(bs, p, b), if p == 0 then 0 else p - 1, p + 1)
  {
    forall i | 0 <= i < p ensures End(bs[i]) <= b.base {
      assert b.base in Units(b);
      assert In(bs[i], b.base) ==> b.base in FreeSet(bs);
    }
    forall i | p <= i < |bs| ensures End(b) <= bs[i].base {
      assert In(bs[i], bs[i].base) && bs[i].base in FreeSet(bs);
      assert bs[i].base !in Units(b);
    }
    InsertOrdered(bs, p, b);
  }

  lemma InsertOrdered(bs: seq<Block>, p: nat, b: Block)
    requires Canonical(bs) && p <= |bs| && b.len > 0
    requires forall i | 0 <= i < p :: End(bs[i]) <= b.base
    requires forall i | p <= i < |bs| :: End(b) <= bs[i].base
    ensures Loose(Inserted(bs, p, b), if p == 0 then 0 else p - 1, p + 1)
  {
    var r := Inserted(bs, p, b);
    var lo := if p == 0 then 0 else p - 1;
    forall i, j | 0 <= i < j < |r|
      ensures End(r[i]) <= r[j].base
      ensures !(lo <= i < p + 1 && j == i + 1) ==> End(r[i]) < r[j].base
    {
      if i < p && j == p && i + 1 < p { assert End(bs[i]) < bs[p - 1].base; }
      if i == p && j > p + 1 { assert End(bs[p]) < bs[j - 1].base; }
    }
  }

  lemma JoinIndex(bs: seq<Block>, k: nat)
    requires k + 1 < |bs|
    ensures var r := Joined(bs, k);
      && |r| == |bs| - 1 && r[k] == Block(bs[k].base, bs[k].len + bs[k + 1].len)
      && (forall i | 0 <= i < k :: r[i] == bs[i])
      && (forall i | k < i < |r| :: r[i] == bs[i + 1])
  {
  }

  lemma JoinSet(bs: seq<Block>, k: nat)
    requires k + 1 < |bs| && End(bs[k]) == bs[k + 1].base
    ensures FreeSet(Joined(bs, k)) == FreeSet(bs)
  {
    var r := Joined(bs, k);
    JoinIndex(bs, k);
    forall c: nat ensures In(r[k], c) <==> In(bs[k], c) || In(bs[k + 1], c) {}
    hide In, Joined, Removed;
    forall c: nat ensures Covered(r, c) <==> Covered(bs, c) {
      if i :| 0 <= i < |r| && In(r[i], c) {
        assert i == k || In(bs[if i < k then i else i + 1], c);
      }
      if i :| 0 <= i < |bs| && In(bs[i], c) {
        assert i == k || i == k + 1 || In(r[if i < k then i else i - 1], c);
      }
    }
  }

  lemma LooseDone(bs: seq<Block>, lo: nat, hi: nat)
    requires Loose(bs, lo, hi) && (lo >= hi || |bs| <= lo + 1)
    ensures Canonical(bs)
  {
  }

  lemma LooseSkip(bs: seq<Block>, lo: nat, hi: nat)
    requires Loose(bs, lo, hi) && lo + 1 < |bs| && End(bs[lo]) != bs[lo + 1].base
    ensures Loose(bs, lo + 1, hi)
  {
  }

  lemma MergeStep(bs: seq<Block>, k: nat, left: nat)
    requires k + 1 < |bs| && left > 0 && Loose(bs, k, k + left)
    ensures End(bs[k]) == bs[k + 1].base ==>
              var j := Joined(bs, k); Loose(j, k, k + left - 1) && FreeSet(j) == FreeSet(bs) && |j| == |bs| - 1
    ensures End(bs[k]) != bs[k + 1].base ==> Loose(bs, k + 1, k + left)
  {
    if End(bs[k]) == bs[k + 1].base {
      JoinKeeps(bs, k, k + left);
      JoinSet(bs, k);
    } else {
      LooseSkip(bs, k, k + left);
    }
  }

  lemma JoinedGrown(bs: seq<Block>, k: nat, grown: seq<Block>)
    requires k + 1 < |bs| && grown == bs[k := Block(bs[k].base, bs[k].len + bs[k + 1].len)]
    ensures Joined(bs, k) == Removed(grown, k + 1)
  {
  }

  lemma JoinKeeps(bs: seq<Block>, k: nat, hi: nat)
    requires Loose(bs, k, hi) && k < hi && k + 1 < |bs| && End(bs[k]) == bs[k + 1].base
    ensures Loose(Joined(bs, k), k, hi - 1)
  {
    JoinIndex(bs, k);
  }

  /** Taking the whole of block k out of a canonical list. */
  lemma RemoveKeeps(bs: seq<Block>, k: nat)
    requires Canonical(bs) && k < |bs|
    ensures Took(bs, bs[k], Removed(bs, k))
  {
    var r := Removed(bs, k);
    forall c: nat ensures c in FreeSet(r) <==> c in FreeSet(bs) && !In(bs[k], c) {
      RemoveCovered(bs, k, c);
    }
    forall c | c in Units(bs[k]) ensures c in FreeSet(bs) { assert In(bs[k], c); }
  }

  lemma OneBlockOnly(bs: seq<Block>, i: nat, k: nat, c: nat)
    requires Canonical(bs) && i < |bs| && k < |bs| && In(bs[i], c) && In(bs[k], c)
    ensures i == k
  {
  }

  lemma RemoveCovered(bs: seq<Block>, k: nat, c: nat)
    requires Canonical(bs) && k < |bs|
    ensures Covered(Removed(bs, k), c) <==> Covered(bs, c) && !In(bs[k], c)
  {
    hide In, Canonical;
    var r := Removed(bs, k);
    if i: nat :| i < |r| && In(r[i], c) {
      var j := if i < k then i else i + 1;
      assert In(bs[j], c);
      if In(bs[k], c) { OneBlockOnly(bs, j, k, c); }
    }
    if i: nat :| i < |bs| && In(bs[i], c) && !In(bs[k], c) {
      assert In(r[if i < k then i else i - 1], c);
    }
  }

  /** Cutting less than all of block k off at its front or its end. */
  lemma ShrinkKeeps(bs: seq<Block>, k: nat, cut: Block, rest: Block)
    requires Canonical(bs) && k < |bs| && rest.len > 0 && cut.len + rest.len == bs[k].len
    requires (cut.base == bs[k].base && rest.base == End(cut)) || (rest.base == bs[k].base && cut.base == End(rest))
    ensures Took(bs, cut, bs[k := rest])
  {
    var r := bs[k := rest];
    forall c: nat ensures c in FreeSet(r) <==> c in FreeSet(bs) && !In(cut, c) {
      ShrinkCovered(bs, k, cut, rest, c);
    }
    forall c | c in Units(cut) ensures c in FreeSet(bs) { assert In(bs[k], c); }
    assert Canonical(r) by {
      assert bs[k].base <= rest.base && End(rest) <= End(bs[k]);
    }
  }

  lemma ShrinkCovered(bs: seq<Block>, k: nat, cut: Block, rest: Block, c: nat)
    requires Canonical(bs) && k < |bs| && cut.len + rest.len == bs[k].len
    requires (cut.base == bs[k].base && rest.base == End(cut)) || (rest.base == bs[k].base && cut.base == End(rest))
    ensures Covered(bs[k := rest], c) <==> Covered(bs, c) && !In(cut, c)
  {
    var r := bs[k := rest];
    assert In(bs[k], c) <==> In(cut, c) || In(rest, c);
    if Covered(r, c) {
      var i :| 0 <= i < |r| && In(r[i], c);
      assert In(bs[i], c);
    }
    if Covered(bs, c) && !In(cut, c) {
      var i :| 0 <= i < |bs| && In(bs[i], c);
      assert In(r[i], c);
    }
  }
}
