/** The page allocator of minix/alloc.c. The AVL tree of page ranges is an address-ordered sequence. */
module PageRanges {
  import opened SeqEdits
  import opened FreeLists

  datatype Flags = Flags(lower16: bool, lower1: bool, firstBlock: bool)

  datatype PageResult = NoPages | Got(addr: nat, pages: nat)

  datatype ListResult = Pieces(list: seq<Block>) | OutOfMemory | OutOfSlab

  predicate Usable(b: Block, pages: nat, flags: Flags) {
    b.len >= pages || flags.firstBlock
  }

  function Min(a: nat, b: nat): nat {
    if a < b then a else b
  }

  /** addr_search with AVL_EQUAL. */
  function FindBase(rs: seq<Block>, a: nat): (k: int)
    ensures k == -1 || (0 <= k < |rs| && rs[k].base == a)
    ensures k == -1 ==> forall i | 0 <= i < |rs| :: rs[i].base != a
  {
    if rs == [] then -1
    else if rs[|rs| - 1].base == a then |rs| - 1
    else FindBase(rs[..|rs| - 1], a)
  }

  /** Where addr_insert puts a range that starts at a. */
  function Place(rs: seq<Block>, a: nat): (p: nat)
    requires Canonical(rs)
    ensures p <= |rs|
    ensures forall i | 0 <= i < p :: rs[i].base < a
    ensures forall i | p <= i < |rs| :: a <= rs[i].base
  {
    if rs == [] || rs[|rs| - 1].base < a then |rs| else Place(rs[..|rs| - 1], a)
  }

  predicate StartsAt(rs: seq<Block>, a: nat) {
    exists i :: 0 <= i < |rs| && rs[i].base == a
  }

  predicate EndsAt(rs: seq<Block>, a: nat) {
    exists i :: 0 <= i < |rs| && End(rs[i]) == a
  }

  function Flat(batches: seq<seq<Block>>): seq<Block> {
    if batches == [] then [] else batches[0] + Flat(batches[1..])
  }

  /** What free_yielded hands back before the first call that frees nothing. */
  function Reclaim(batches: seq<seq<Block>>): nat {
    if batches == [] || Total(batches[0]) == 0 then 0 else Total(batches[0]) + Reclaim(batches[1..])
  }

  lemma {:induction false} TotalParts(a: seq<Block>, b: seq<Block>)
    ensures Total(a + b) == Total(a) + Total(b)
  {
    if a == [] {
      assert a + b == b;
    } else {
      TotalParts(a[1..], b);
      assert (a + b)[1..] == a[1..] + b && (a + b)[0] == a[0];
    }
  }

  /** All of it, when no batch is empty. */
  lemma {:induction false} ReclaimIsAll(batches: seq<seq<Block>>)
    requires forall i | 0 <= i < |batches| :: Total(batches[i]) > 0
    ensures Reclaim(batches) == Total(Flat(batches))
  {
    if batches != [] {
      assert Total(batches[0]) > 0;
      forall i | 0 <= i < |batches| - 1 ensures Total(batches[1..][i]) > 0 { assert batches[1..][i] == batches[i + 1]; }
      ReclaimIsAll(batches[1..]);
      TotalParts(batches[0], Flat(batches[1..]));
    }
  }

  /** A new range p: it touches nothing behind it when no range starts at its end. */
  lemma InsertedRange(rs: seq<Block>, b: Block, p: nat)
    requires Canonical(rs) && b.len > 0 && Units(b) !! FreeSet(rs)
    requires !StartsAt(rs, End(b)) && p == Place(rs, b.base)
    ensures FreeSet(Inserted(rs, p, b)) == FreeSet(rs) + Units(b)
    ensures |Inserted(rs, p, b)| == |rs| + 1 && Inserted(rs, p, b)[p] == b
    ensures p > 0 ==> Inserted(rs, p, b)[p - 1] == rs[p - 1]
    ensures Loose(Inserted(rs, p, b), if p == 0 then 0 else p - 1, p)
    ensures EndsAt(rs, b.base) <==> p > 0 && End(rs[p - 1]) == b.base
  {
    hide FreeSet, Units;
    InsertKeeps(rs, p, b);
    InsertSet(rs, p, b);
    assert p < |rs| ==> rs[p].base != End(b);
    Neighbours(rs, b, p);
  }

  /** Range h grown downwards over b. */
  lemma GrownRange(rs: seq<Block>, b: Block, h: nat)
    requires Canonical(rs) && b.len > 0 && Units(b) !! FreeSet(rs)
    requires h < |rs| && rs[h].base == End(b)
    ensures var mid := rs[h := Block(b.base, rs[h].len + b.len)];
      && FreeSet(mid) == FreeSet(rs) + Units(b)
      && Loose(mid, if h == 0 then 0 else h - 1, h)
    ensures EndsAt(rs, b.base) <==> h > 0 && End(rs[h - 1]) == b.base
  {
    BeforeBlock(rs, b, h);
    InsertKeeps(rs, h, b);
    InsertSet(rs, h, b);
    Neighbours(rs, b, h);
    JoinInserted(rs, h, b);
    hide FreeSet, Units, Loose, Canonical, Joined, EndsAt;
    var ins := Inserted(rs, h, b);
    JoinSet(ins, h);
    JoinHigh(ins, if h == 0 then 0 else h - 1, h);
  }

  lemma JoinInserted(rs: seq<Block>, h: nat, b: Block)
    requires h < |rs|
    ensures Joined(Inserted(rs, h, b), h) == rs[h := Block(b.base, rs[h].len + b.len)]
  {
    var ins := Inserted(rs, h, b);
    JoinIndex(ins, h);
    hide Joined;
  }

  lemma MergeLow(mid: seq<Block>, pr: nat)
    requires pr < |mid| && Loose(mid, if pr == 0 then 0 else pr - 1, pr)
    ensures pr > 0 && End(mid[pr - 1]) == mid[pr].base ==>
              var j := Joined(mid, pr - 1); Canonical(j) && FreeSet(j) == FreeSet(mid) && |j| == |mid| - 1
    ensures !(pr > 0 && End(mid[pr - 1]) == mid[pr].base) ==> Canonical(mid)
  {
    if pr == 0 {
      LooseDone(mid, 0, 0);
    } else if End(mid[pr - 1]) == mid[pr].base {
      JoinKeeps(mid, pr - 1, pr);
      JoinSet(mid, pr - 1);
      LooseDone(Joined(mid, pr - 1), pr - 1, pr - 1);
    } else {
      LooseSkip(mid, pr - 1, pr);
      LooseDone(mid, pr, pr);
    }
  }

  lemma Neighbours(rs: seq<Block>, b: Block, p: nat)
    requires Canonical(rs) && p <= |rs| && b.len > 0
    requires forall i | 0 <= i < p :: rs[i].base < b.base
    requires forall i | p <= i < |rs| :: b.base <= rs[i].base
    ensures EndsAt(rs, b.base) <==> p > 0 && End(rs[p - 1]) == b.base
  {
    if i :| 0 <= i < |rs| && End(rs[i]) == b.base {
      assert i < p - 1 ==> End(rs[i]) < rs[p - 1].base;
    }
  }

  lemma BeforeBlock(rs: seq<Block>, b: Block, h: nat)
    requires Canonical(rs) && b.len > 0 && Units(b) !! FreeSet(rs) && h < |rs| && rs[h].base == End(b)
    ensures forall i | 0 <= i < h :: rs[i].base < b.base
    ensures forall i | h <= i < |rs| :: b.base <= rs[i].base
  {
    forall i | 0 <= i < h ensures rs[i].base < b.base {
      assert In(rs[i], rs[i].base) && rs[i].base in FreeSet(rs);
      assert rs[i].base !in Units(b);
    }
  }

  lemma JoinHigh(bs: seq<Block>, lo: nat, k: nat)
    requires Loose(bs, lo, k + 1) && lo <= k && k + 1 < |bs| && End(bs[k]) == bs[k + 1].base
    ensures Loose(Joined(bs, k), lo, k)
  {
    JoinIndex(bs, k);
    hide Joined;
  }

  lemma DropFirst(bs: seq<Block>)
    requires bs != [] && Disjoint(bs)
    ensures FreeSet(bs) == FreeSet(bs[1..]) + Units(bs[0]) && Units(bs[0]) !! FreeSet(bs[1..])
    ensures bs[0] == Block(bs[0].base, bs[0].len) && Disjoint(bs[1..])
  {
    DropUsed(bs, 0);
    assert Removed(bs, 0) == bs[1..];
  }

  lemma DropNone(bs: seq<Block>)
    requires bs == []
    ensures FreeSet(bs) == {}
  {
  }

  lemma FlatSplit(batches: seq<seq<Block>>)
    requires batches != [] && Disjoint(Flat(batches))
    ensures Disjoint(batches[0]) && Disjoint(Flat(batches[1..]))
    ensures FreeSet(batches[0]) !! FreeSet(Flat(batches[1..]))
    ensures FreeSet(Flat(batches)) == FreeSet(batches[0]) + FreeSet(Flat(batches[1..]))
    ensures forall i | 0 <= i < |batches[0]| :: batches[0][i] == Flat(batches)[i]
    ensures forall i | 0 <= i < |Flat(batches[1..])| :: Flat(batches[1..])[i] == Flat(batches)[|batches[0]| + i]
  {
    ConcatParts(batches[0], Flat(batches[1..]));
  }

  lemma ConcatParts(a: seq<Block>, b: seq<Block>)
    ensures FreeSet(a + b) == FreeSet(a) + FreeSet(b)
    ensures Disjoint(a + b) ==> Disjoint(a) && Disjoint(b) && FreeSet(a) !! FreeSet(b)
  {
    var s := a + b;
    assert forall i | 0 <= i < |a| :: s[i] == a[i];
    assert forall i | 0 <= i < |b| :: s[|a| + i] == b[i];
    forall c: nat ensures Covered(s, c) <==> Covered(a, c) || Covered(b, c) {
      if i :| 0 <= i < |a| && In(a[i], c) { assert In(s[i], c); }
      if i :| 0 <= i < |b| && In(b[i], c) { assert In(s[|a| + i], c); }
    }
    if Disjoint(s) {
      forall i, j | 0 <= i < j < |a| ensures Units(a[i]) !! Units(a[j]) { assert Units(s[i]) !! Units(s[j]); }
      forall i, j | 0 <= i < j < |b| ensures Units(b[i]) !! Units(b[j]) {
        assert Units(s[|a| + i]) !! Units(s[|a| + j]);
      }
      forall c | c in FreeSet(a) ensures c !in FreeSet(b) {
        var i :| 0 <= i < |a| && In(a[i], c);
        forall j | 0 <= j < |b| ensures !In(b[j], c) { assert Units(s[i]) !! Units(s[|a| + j]); }
      }
    }
  }

  /** The invariant between calls: free ranges and blocks still to be reclaimed are all disjoint. */
  ghost predicate Separate(ranges: seq<Block>, batches: seq<seq<Block>>) {
    var later := Flat(batches);
    && Canonical(ranges)
    && Disjoint(later)
    && (forall i | 0 <= i < |later| :: later[i].len > 0)
    && FreeSet(later) !! FreeSet(ranges)
  }

  /** The pieces collected so far, when `start` was free at the call and `yielded` came back since. */
  ghost predicate Holding(ranges: seq<Block>, batches: seq<seq<Block>>, list: seq<Block>, start: seq<Block>,
                          yielded: seq<Block>)
  {
    && Separate(ranges, batches)
    && Disjoint(list)
    && (forall i | 0 <= i < |list| :: list[i].len > 0)
    && FreeSet(list) !! FreeSet(ranges)
    && FreeSet(list) !! FreeSet(Flat(batches))
    && FreeSet(ranges) + FreeSet(list) == FreeSet(start) + FreeSet(yielded)
  }

  lemma SeparateParts(ranges: seq<Block>, batches: seq<seq<Block>>)
    requires Separate(ranges, batches)
    ensures Canonical(ranges) && forall i | 0 <= i < |ranges| :: ranges[i].len > 0
  {
  }

  lemma HeldRanges(ranges: seq<Block>, batches: seq<seq<Block>>, list: seq<Block>, start: seq<Block>,
                   yielded: seq<Block>)
    requires Holding(ranges, batches, list, start, yielded)
    ensures Canonical(ranges) && forall i | 0 <= i < |ranges| :: ranges[i].len > 0
  {
    SeparateParts(ranges, batches);
  }

  lemma AllUsable(ranges: seq<Block>, pages: nat, flags: Flags)
    ensures flags.firstBlock && (forall i | 0 <= i < |ranges| :: !Usable(ranges[i], pages, flags)) ==> ranges == []
    ensures ranges == [] ==> Total(ranges) == 0
  {
    assert flags.firstBlock && ranges != [] ==> Usable(ranges[0], pages, flags);
  }

  lemma {:induction false} DisjointTotal(bs: seq<Block>)
    requires Disjoint(bs)
    ensures Total(bs) == |FreeSet(bs)|
  {
    if bs == [] {
      DropNone(bs);
    } else {
      DropFirst(bs);
      DisjointTotal(bs[1..]);
      UnitsCount(bs[0]);
    }
  }

  lemma TakePiece(before: seq<Block>, after: seq<Block>, batches: seq<seq<Block>>, list: seq<Block>,
                  start: seq<Block>, yielded: seq<Block>, b: Block)
    requires Holding(before, batches, list, start, yielded) && Took(before, b, after) && b.len > 0
    ensures Holding(after, batches, [b] + list, start, yielded) && Total(before) == Total(after) + b.len
  {
    TookTotal(before, b, after);
    AddUsed(list, 0, b);
    assert Inserted(list, 0, b) == [b] + list;
  }

  lemma YieldBatch(before: seq<Block>, after: seq<Block>, batches: seq<seq<Block>>, list: seq<Block>,
                   start: seq<Block>, yielded: seq<Block>)
    requires Holding(before, batches, list, start, yielded)
    requires batches == [] ==> after == before
    requires batches != [] ==> Canonical(after) && FreeSet(after) == FreeSet(before) + FreeSet(batches[0])
    ensures batches == [] ==> Holding(after, batches, list, start, yielded) && Reclaim(batches) == 0
    ensures batches != [] ==>
              && Holding(after, batches[1..], list, start, yielded + batches[0])
              && Total(after) == Total(before) + Total(batches[0])
              && yielded + batches[0] + Flat(batches[1..]) == yielded + Flat(batches)
              && (Total(batches[0]) == 0 ==> batches[0] == [] && Reclaim(batches) == 0)
              && (Total(batches[0]) > 0 ==> Reclaim(batches) == Total(batches[0]) + Reclaim(batches[1..]))
  {
    if batches != [] {
      FlatRest(yielded, batches);
      hide Canonical, FreeSet, Total, Flat, Holding;
      YieldHolds(before, after, batches, list, start, yielded);
      YieldSum(before, after, batches, list, start, yielded);
      FirstBatch(before, batches, list, start, yielded);
    }
  }

  lemma Regroup(a: seq<Block>, b: Block, list: seq<Block>)
    ensures a + [b] + list == a + ([b] + list)
  {
  }

  lemma SameYield(before: seq<Block>, yielded: seq<Block>, rest: seq<Block>)
    ensures yielded + rest == before + rest ==> yielded == before
  {
    if yielded + rest == before + rest {
      assert |yielded| == |before|;
      assert yielded == (yielded + rest)[..|yielded|] && before == (before + rest)[..|before|];
    }
  }

  lemma FlatRest(yielded: seq<Block>, batches: seq<seq<Block>>)
    requires batches != []
    ensures yielded + batches[0] + Flat(batches[1..]) == yielded + Flat(batches)
  {
  }

  lemma YieldSum(before: seq<Block>, after: seq<Block>, batches: seq<seq<Block>>, list: seq<Block>,
                 start: seq<Block>, yielded: seq<Block>)
    requires Holding(before, batches, list, start, yielded) && batches != []
    requires Canonical(after) && FreeSet(after) == FreeSet(before) + FreeSet(batches[0])
    ensures Total(after) == Total(before) + Total(batches[0])
  {
    FlatSplit(batches);
    hide Canonical, FreeSet, Total, Disjoint, Flat;
    YieldTotal(before, after, batches[0]);
  }

  /** Every block that comes back has pages, so a batch without pages is empty. */
  lemma FirstBatch(ranges: seq<Block>, batches: seq<seq<Block>>, list: seq<Block>, start: seq<Block>,
                   yielded: seq<Block>)
    requires Holding(ranges, batches, list, start, yielded) && batches != []
    ensures Total(batches[0]) == 0 ==> batches[0] == []
  {
    hide Canonical, FreeSet, Disjoint;
    assert batches[0] != [] ==> batches[0][0] == Flat(batches)[0];
  }

  lemma YieldTotal(before: seq<Block>, after: seq<Block>, batch: seq<Block>)
    requires Canonical(before) && Canonical(after) && Disjoint(batch) && FreeSet(batch) !! FreeSet(before)
    requires FreeSet(after) == FreeSet(before) + FreeSet(batch)
    ensures Total(after) == Total(before) + Total(batch)
  {
    TotalIsCount(before);
    TotalIsCount(after);
    DisjointTotal(batch);
  }

  lemma YieldHolds(before: seq<Block>, after: seq<Block>, batches: seq<seq<Block>>, list: seq<Block>,
                   start: seq<Block>, yielded: seq<Block>)
    requires Holding(before, batches, list, start, yielded) && batches != []
    requires Canonical(after) && FreeSet(after) == FreeSet(before) + FreeSet(batches[0])
    ensures Holding(after, batches[1..], list, start, yielded + batches[0])
  {
    hide Units, Canonical, Disjoint, FreeSet;
    FlatSplit(batches);
    ConcatParts(yielded, batches[0]);
  }

  lemma StartHolding(ranges: seq<Block>, batches: seq<seq<Block>>)
    requires Separate(ranges, batches)
    ensures Holding(ranges, batches, [], ranges, []) && Total([]) == 0 && Canonical(ranges)
  {
  }

  lemma TotalCons(b: Block, bs: seq<Block>)
    ensures Total([b] + bs) == b.len + Total(bs)
  {
    assert ([b] + bs)[1..] == bs;
  }

  /** What free_mem_list needs, and what freeing the whole list gives. */
  lemma GiveUp(ranges: seq<Block>, batches: seq<seq<Block>>, list: seq<Block>, start: seq<Block>, yielded: seq<Block>)
    requires Holding(ranges, batches, list, start, yielded)
    ensures Canonical(ranges) && Disjoint(list) && FreeSet(list) !! FreeSet(ranges)
    ensures forall i | 0 <= i < |list| :: list[i].len > 0
    ensures forall after | Canonical(after) && FreeSet(after) == FreeSet(ranges) + FreeSet(list) ::
              Separate(after, batches) && FreeSet(after) == FreeSet(start) + FreeSet(yielded)
    ensures list != [] ==> FreeSet(list) == Units(list[0]) + FreeSet(list[1..]) && Units(list[0]) !! FreeSet(list[1..])
  {
    if list != [] { DropFirst(list); }
  }

  lemma GiveUpPiece(ranges: seq<Block>, batches: seq<seq<Block>>, b: Block, list: seq<Block>, start: seq<Block>,
                    yielded: seq<Block>)
    requires Holding(ranges, batches, [b] + list, start, yielded)
    ensures Canonical(ranges) && Disjoint(list) && FreeSet(list) !! FreeSet(ranges) && b.len > 0
    ensures Units(b) !! FreeSet(ranges) && Units(b) !! FreeSet(list)
    ensures forall i | 0 <= i < |list| :: list[i].len > 0
    ensures forall after | Canonical(after) && FreeSet(after) == FreeSet(ranges) + FreeSet(list) + Units(b) ::
              Separate(after, batches) && FreeSet(after) == FreeSet(start) + FreeSet(yielded)
  {
    var all := [b] + list;
    GiveUp(ranges, batches, all, start, yielded);
    assert all[1..] == list && all[0] == b;
    DropFirst(all);
    hide Holding, Separate, Canonical, FreeSet, Units, Disjoint;
    assert forall i | 0 <= i < |list| :: list[i] == all[i + 1];
  }

  lemma Restored(after: seq<Block>, start: seq<Block>, yielded: seq<Block>)
    requires Canonical(after) && Canonical(start) && FreeSet(after) == FreeSet(start) + FreeSet(yielded)
    ensures yielded == [] ==> after == start
  {
    if yielded == [] {
      DropNone(yielded);
      CanonicalUnique(after, start);
    }
  }

  /** `after` is the canonical list of `before` and of a batch that came back. */
  ghost predicate CameBack(before: seq<Block>, batch: seq<Block>, after: seq<Block>) {
    Canonical(after) && FreeSet(after) == FreeSet(before) + FreeSet(batch)
  }

  /** The free ranges from `start` on, after each of the first batches has come back. */
  ghost predicate Reclaimed(tried: seq<seq<Block>>, start: seq<Block>, batches: seq<seq<Block>>) {
    && 1 <= |tried| <= |batches| + 1 && tried[0] == start
    && forall i, j | 0 <= i < |tried| - 1 && j == i + 1 :: CameBack(tried[i], batches[i], tried[j])
  }

  lemma ReclaimedMore(tried: seq<seq<Block>>, start: seq<Block>, batches: seq<seq<Block>>, next: seq<Block>)
    requires Reclaimed(tried, start, batches) && |tried| <= |batches|
    requires CameBack(tried[|tried| - 1], batches[|tried| - 1], next)
    ensures Reclaimed(tried + [next], start, batches)
  {
    hide CameBack;
  }

  /** Disjoint blocks from low to high addresses, or from high to low. */
  predicate InOrder(l: seq<Block>, down: bool) {
    forall i, j | 0 <= i < j < |l| :: if down then End(l[j]) < l[i].base else End(l[i]) < l[j].base
  }

  predicate Within(l: seq<Block>, lo: nat, hi: nat) {
    forall i | 0 <= i < |l| :: lo <= l[i].base && End(l[i]) <= hi
  }

  lemma NothingInOrder(down: bool, lo: nat, hi: nat)
    ensures InOrder([], down) && Within([], lo, hi)
  {
  }

  lemma OneInOrder(b: Block, down: bool, lo: nat, hi: nat)
    requires lo <= b.base && End(b) <= hi
    ensures InOrder([b], down) && Within([b], lo, hi)
  {
  }

  lemma AddedInOrder(l: seq<Block>, b: Block, down: bool, lo: nat, hi: nat, lo2: nat, hi2: nat)
    requires InOrder(l, down) && Within(l, lo, hi) && (if down then End(b) < lo else hi < b.base)
    requires lo2 <= lo && hi <= hi2 && lo2 <= b.base && End(b) <= hi2
    ensures InOrder(l + [b], down) && Within(l + [b], lo2, hi2)
  {
  }

  lemma EndOrder(bs: seq<Block>, k: nat)
    requires Canonical(bs) && k < |bs|
    ensures bs[0].base <= bs[k].base && End(bs[k]) <= End(bs[|bs| - 1])
  {
    if k > 0 { assert End(bs[0]) < bs[k].base; }
    if k < |bs| - 1 { assert End(bs[k]) < bs[|bs| - 1].base; }
  }

  /** Without the first or the last block, the others lie on one side of it. */
  lemma WithoutEnd(bs: seq<Block>, k: nat)
    requires Canonical(bs) && k < |bs| && (k == 0 || k == |bs| - 1)
    ensures var r := Removed(bs, k);
      && Canonical(r) && |r| == |bs| - 1
      && (r != [] && k == 0 ==> End(bs[k]) < r[0].base && End(r[|r| - 1]) == End(bs[|bs| - 1]))
      && (r != [] && k == |bs| - 1 ==> End(r[|r| - 1]) < bs[k].base && r[0].base == bs[0].base)
  {
    RemoveKeeps(bs, k);
  }

  lemma Ordered(bs: seq<Block>, i: nat, j: nat)
    requires Canonical(bs) && i < j < |bs|
    ensures End(bs[i]) < End(bs[j])
  {
  }

  lemma NoTotal(bs: seq<Block>)
    requires bs == []
    ensures Total(bs) == 0
  {
  }

  lemma RemoveLast(bs: seq<Block>)
    requires Canonical(bs) && bs != []
    ensures var k := |bs| - 1; var r := Removed(bs, k);
            Canonical(r) && |r| == k && Total(bs) == Total(r) + bs[k].len
  {
    var k := |bs| - 1;
    RemoveKeeps(bs, k);
    TookTotal(bs, bs[k], Removed(bs, k));
    hide Total, Canonical;
  }

  class PageAllocator {
    const boundary16: nat // pages below 16 MB
    const boundary1: nat  // pages below 1 MB
    var ranges: seq<Block>
    var reclaimable: seq<seq<Block>> // what successive calls of free_yielded would free

    ghost predicate Valid()
      reads this
    {
      Separate(ranges, reclaimable)
    }

    predicate LowEnough(b: Block, pages: nat, flags: Flags) {
      (flags.lower16 ==> b.base + pages <= boundary16) && (flags.lower1 ==> b.base + pages <= boundary1)
    }

    /** The first usable range in scan order: upward for a low-memory request, else downward. */
    predicate Chosen(rs: seq<Block>, pages: nat, flags: Flags, k: nat) {
      && k < |rs| && Usable(rs[k], pages, flags)
      && if Upward(flags) then forall i | 0 <= i < k :: !Usable(rs[i], pages, flags)
         else forall i | k < i < |rs| :: !Usable(rs[i], pages, flags)
    }

    predicate Upward(flags: Flags) {
      flags.lower16 || flags.lower1
    }

    /** The scan of alloc_pages from range i on; -1 when it finds nothing usable. */
    function Scan(rs: seq<Block>, pages: nat, flags: Flags, i: int): (k: int)
      requires if Upward(flags) then 0 <= i <= |rs| else -1 <= i < |rs|
      requires Upward(flags) ==> forall j | 0 <= j < i :: !Usable(rs[j], pages, flags)
      requires !Upward(flags) ==> forall j | i < j < |rs| :: !Usable(rs[j], pages, flags)
      ensures k == -1 || (k >= 0 && Chosen(rs, pages, flags, k))
      ensures k == -1 ==> forall j | 0 <= j < |rs| :: !Usable(rs[j], pages, flags)
      decreases if Upward(flags) then |rs| - i else i
    {
      if !(0 <= i < |rs|) then -1
      else if Usable(rs[i], pages, flags) then i
      else Scan(rs, pages, flags, if Upward(flags) then i + 1 else i - 1)
    }

    function FirstUsable(rs: seq<Block>, pages: nat, flags: Flags): (k: int)
      ensures k == -1 || (0 <= k < |rs| && Chosen(rs, pages, flags, k))
      ensures k == -1 ==> forall j | 0 <= j < |rs| :: !Usable(rs[j], pages, flags)
    {
      Scan(rs, pages, flags, if Upward(flags) then 0 else |rs| - 1)
    }

    /** Repeated grants, with nothing coming back in between, add up to rem pages. */
    predicate Supplies(rs: seq<Block>, rem: nat, flags: Flags)
      decreases |rs|
    {
      rem == 0
      || var k := FirstUsable(rs, rem, flags);
         && k != -1 && LowEnough(rs[k], rem, flags)
         && (rem <= rs[k].len || Supplies(Removed(rs, k), rem - rs[k].len, flags))
    }

    /** alloc_pages grants something. */
    predicate Grants(rs: seq<Block>, pages: nat, flags: Flags) {
      var k := FirstUsable(rs, pages, flags);
      k != -1 && LowEnough(rs[k], pages, flags)
    }

    lemma SuppliesGrants(rs: seq<Block>, rem: nat, flags: Flags)
      requires rem > 0 && Supplies(rs, rem, flags)
      ensures Grants(rs, rem, flags)
    {
      hide FirstUsable, LowEnough;
    }

    lemma ChosenGrants(rs: seq<Block>, pages: nat, flags: Flags, k: nat)
      requires Chosen(rs, pages, flags, k)
      ensures Grants(rs, pages, flags) <==> LowEnough(rs[k], pages, flags)
    {
      ChosenIsFirst(rs, pages, flags, k);
      hide FirstUsable, Chosen, LowEnough;
    }

    lemma NothingGranted(rs: seq<Block>, pages: nat, flags: Flags)
      requires forall i | 0 <= i < |rs| :: !Usable(rs[i], pages, flags)
      ensures !Grants(rs, pages, flags)
    {
      hide Scan;
      assert FirstUsable(rs, pages, flags) == -1;
    }

    lemma ChosenUnique(rs: seq<Block>, pages: nat, flags: Flags, k: nat, j: nat)
      requires Chosen(rs, pages, flags, k) && Chosen(rs, pages, flags, j)
      ensures k == j
    {
    }

    lemma ChosenInside(rs: seq<Block>, pages: nat, flags: Flags, k: nat)
      requires Chosen(rs, pages, flags, k)
      ensures k < |rs|
    {
    }

    lemma ChosenIsFirst(rs: seq<Block>, pages: nat, flags: Flags, k: nat)
      requires Chosen(rs, pages, flags, k)
      ensures FirstUsable(rs, pages, flags) == k
    {
      hide Scan;
      var j := FirstUsable(rs, pages, flags);
      assert j != -1;
      ChosenUnique(rs, pages, flags, j, k);
    }

    lemma SuppliesIs(rs: seq<Block>, rem: nat, flags: Flags, k: nat)
      requires rem > 0 && Chosen(rs, rem, flags, k)
      ensures Supplies(rs, rem, flags) <==>
                LowEnough(rs[k], rem, flags) && (rem <= rs[k].len || Supplies(Removed(rs, k), rem - rs[k].len, flags))
    {
      ChosenIsFirst(rs, rem, flags, k);
      hide FirstUsable, Chosen, LowEnough, Removed;
    }

    /** The list that repeated grants of rem pages build up: the last grant first. */
    function GrantList(rs: seq<Block>, rem: nat, flags: Flags): seq<Block>
      decreases |rs|
    {
      var k := FirstUsable(rs, rem, flags);
      if rem == 0 || k == -1 then []
      else if rem <= rs[k].len then [Block(End(rs[k]) - rem, rem)]
      else GrantList(Removed(rs, k), rem - rs[k].len, flags) + [rs[k]]
    }

    lemma NoGrants(rs: seq<Block>, flags: Flags)
      ensures GrantList(rs, 0, flags) == []
    {
    }

    lemma GrantListStep(rs: seq<Block>, rem: nat, flags: Flags, k: nat, addr: nat, pages: nat, after: seq<Block>)
      requires rem > 0 && Chosen(rs, rem, flags, k) && k < |rs| && addr + pages == End(rs[k])
      requires pages == Min(rem, rs[k].len) && (pages == rs[k].len ==> after == Removed(rs, k))
      ensures GrantList(rs, rem, flags) == GrantList(after, rem - pages, flags) + [Block(addr, pages)]
    {
      hide FirstUsable, Chosen, Removed, GrantList;
      ChosenIsFirst(rs, rem, flags, k);
      GrantListIs(rs, rem, flags, k);
      NoGrants(after, flags);
      assert [] + [Block(addr, pages)] == [Block(addr, pages)];
      assert rs[k] == Block(rs[k].base, rs[k].len);
    }

    lemma NoRanges(rs: seq<Block>, rem: nat, flags: Flags)
      requires rs == []
      ensures GrantList(rs, rem, flags) == []
    {
      hide Scan;
    }

    lemma GrantListIs(rs: seq<Block>, rem: nat, flags: Flags, k: nat)
      requires rem > 0 && k < |rs| && FirstUsable(rs, rem, flags) == k
      ensures rem <= rs[k].len ==> GrantList(rs, rem, flags) == [Block(End(rs[k]) - rem, rem)]
      ensures rem > rs[k].len ==>
                GrantList(rs, rem, flags) == GrantList(Removed(rs, k), rem - rs[k].len, flags) + [rs[k]]
    {
      hide FirstUsable, Removed;
    }

    lemma AnyBlockFirst(rs: seq<Block>, rem: nat, flags: Flags)
      requires flags.firstBlock && rs != []
      ensures FirstUsable(rs, rem, flags) == if flags.lower16 || flags.lower1 then 0 else |rs| - 1
    {
      assert Usable(rs[0], rem, flags) && Usable(rs[|rs| - 1], rem, flags);
    }

    /** The pieces of a scattered request lie in the free ranges in order: from low to high addresses in the list, or
        from high to low for a low-memory request. */
    lemma {:induction false} GrantListOrdered(rs: seq<Block>, rem: nat, flags: Flags)
      requires Canonical(rs) && flags.firstBlock
      ensures InOrder(GrantList(rs, rem, flags), flags.lower16 || flags.lower1)
      ensures rs != [] ==> Within(GrantList(rs, rem, flags), rs[0].base, End(rs[|rs| - 1]))
      ensures rs == [] ==> GrantList(rs, rem, flags) == []
      decreases |rs|
    {
      hide Scan, FirstUsable, InOrder, Within, Canonical, GrantList, Removed;
      var down := flags.lower16 || flags.lower1;
      NothingInOrder(down, if rs != [] then rs[0].base else 0, if rs != [] then End(rs[|rs| - 1]) else 0);
      if rem == 0 {
        NoGrants(rs, flags);
      } else if rs == [] {
        NoRanges(rs, rem, flags);
      } else {
        AnyBlockFirst(rs, rem, flags);
        var k := if down then 0 else |rs| - 1;
        EndOrder(rs, k);
        GrantListIs(rs, rem, flags, k);
        if rem > rs[k].len {
          var rest := Removed(rs, k);
          WithoutEnd(rs, k);
          GrantListOrdered(rest, rem - rs[k].len, flags);
          var l := GrantList(rest, rem - rs[k].len, flags);
          if rest == [] {
            OneInOrder(rs[k], down, rs[0].base, End(rs[|rs| - 1]));
            assert l + [rs[k]] == [rs[k]];
          } else {
            AddedInOrder(l, rs[k], down, rest[0].base, End(rest[|rest| - 1]), rs[0].base, End(rs[|rs| - 1]));
          }
        } else {
          OneInOrder(Block(End(rs[k]) - rem, rem), down, rs[0].base, End(rs[|rs| - 1]));
        }
      }
    }

    /** What one grant of `pages` says about the rest of the request. */
    lemma SuppliesStep(rs: seq<Block>, rem: nat, flags: Flags, k: nat, pages: nat, after: seq<Block>)
      requires rem > 0 && Chosen(rs, rem, flags, k) && LowEnough(rs[k], rem, flags)
      requires pages == Min(rem, rs[k].len) && (pages == rs[k].len ==> after == Removed(rs, k))
      ensures Supplies(rs, rem, flags) <==> Supplies(after, rem - pages, flags)
    {
      SuppliesIs(rs, rem, flags, k);
      if rem <= rs[k].len { NoneSupplied(after, flags); }
      hide Supplies, Chosen, LowEnough;
    }

    lemma NoneSupplied(rs: seq<Block>, flags: Flags)
      ensures Supplies(rs, 0, flags)
    {
    }

    lemma NothingSupplied(rs: seq<Block>, rem: nat, flags: Flags)
      requires rem > 0 && forall i | 0 <= i < |rs| :: !Usable(rs[i], rem, flags)
      ensures !Supplies(rs, rem, flags)
    {
      hide Scan;
      assert FirstUsable(rs, rem, flags) == -1;
    }

    /** A contiguous request without low-memory flags needs one range of that many pages. */
    lemma SuppliesContiguous(rs: seq<Block>, rem: nat)
      requires rem > 0
      ensures Supplies(rs, rem, Flags(false, false, false)) <==> exists i :: 0 <= i < |rs| && rs[i].len >= rem
    {
      var flags := Flags(false, false, false);
      var k := FirstUsable(rs, rem, flags);
      hide Scan, FirstUsable;
      if k != -1 { SuppliesIs(rs, rem, flags, k); } else { NothingSupplied(rs, rem, flags); }
    }

    /** A scattered one without low-memory flags needs that many pages in all. */
    lemma {:induction false} SuppliesScattered(rs: seq<Block>, rem: nat)
      requires Canonical(rs)
      ensures Supplies(rs, rem, Flags(false, false, true)) <==> rem <= Total(rs)
      decreases |rs|
    {
      hide Supplies, Canonical, Chosen, LowEnough, Took, Total, Removed;
      var flags := Flags(false, false, true);
      if rem == 0 {
        NoneSupplied(rs, flags);
      } else if rs == [] {
        NothingSupplied(rs, rem, flags);
        NoTotal(rs);
      } else {
        var k := |rs| - 1;
        LastChosen(rs, rem);
        RemoveLast(rs);
        SuppliesIs(rs, rem, flags, k);
        if rem > rs[k].len { SuppliesScattered(Removed(rs, k), rem - rs[k].len); }
      }
    }

    lemma LastChosen(rs: seq<Block>, rem: nat)
      requires rs != []
      ensures Chosen(rs, rem, Flags(false, false, true), |rs| - 1)
      ensures LowEnough(rs[|rs| - 1], rem, Flags(false, false, true))
    {
    }

    method MemStats() returns (nodes: nat, pages: nat, largest: nat)
      ensures nodes == |ranges| && pages == Total(ranges)
      ensures forall i | 0 <= i < |ranges| :: ranges[i].len <= largest
      ensures largest == 0 || exists i :: 0 <= i < |ranges| && ranges[i].len == largest
    {
      nodes, pages, largest := 0, 0, 0;
      while nodes < |ranges|
        invariant nodes <= |ranges| && pages + Total(ranges[nodes..]) == Total(ranges)
        invariant forall i | 0 <= i < nodes :: ranges[i].len <= largest
        invariant largest == 0 || exists i :: 0 <= i < nodes && ranges[i].len == largest
      {
        assert ranges[nodes..][1..] == ranges[nodes + 1..];
        pages := pages + ranges[nodes].len;
        if ranges[nodes].len > largest { largest := ranges[nodes].len; }
        nodes := nodes + 1;
      }
    }

    /** The scan: upward from the lowest range for a low-memory request, else downward from the highest. */
    method FindRange(pages: nat, flags: Flags) returns (i: int)
      ensures i == -1 ==> forall j | 0 <= j < |ranges| :: !Usable(ranges[j], pages, flags)
      ensures i != -1 ==> 0 <= i < |ranges| && Chosen(ranges, pages, flags, i)
    {
      var upward := Upward(flags);
      i := if upward then 0 else |ranges| - 1;
      while 0 <= i < |ranges| && !Usable(ranges[i], pages, flags)
        invariant -1 <= i <= |ranges|
        invariant upward ==> i >= 0 && forall j | 0 <= j < i :: !Usable(ranges[j], pages, flags)
        invariant !upward ==> i < |ranges| && forall j | i < j < |ranges| :: !Usable(ranges[j], pages, flags)
        decreases if upward then |ranges| - i else i
      {
        i := if upward then i + 1 else i - 1;
      }
      if i == |ranges| { i := -1; }
    }

    /** Which range the scan finds: of those that would do, the highest, or the lowest for a low-memory request. */
    lemma ChosenMeans(rs: seq<Block>, pages: nat, flags: Flags, k: nat)
      requires Canonical(rs) && Chosen(rs, pages, flags, k)
      ensures k < |rs| && (rs[k].len >= pages || flags.firstBlock)
      ensures !flags.lower16 && !flags.lower1 ==>
                forall i | 0 <= i < |rs| && (rs[i].len >= pages || flags.firstBlock) :: End(rs[i]) <= End(rs[k])
      ensures flags.lower16 || flags.lower1 ==>
                forall i | 0 <= i < |rs| && (rs[i].len >= pages || flags.firstBlock) :: End(rs[k]) <= End(rs[i])
    {
      forall i: nat | i < |rs| && (rs[i].len >= pages || flags.firstBlock)
        ensures !flags.lower16 && !flags.lower1 ==> End(rs[i]) <= End(rs[k])
        ensures flags.lower16 || flags.lower1 ==> End(rs[k]) <= End(rs[i])
      {
        ChosenAgainst(rs, pages, flags, k, i);
      }
    }

    lemma ChosenAgainst(rs: seq<Block>, pages: nat, flags: Flags, k: nat, i: nat)
      requires Canonical(rs) && Chosen(rs, pages, flags, k) && i < |rs| && (rs[i].len >= pages || flags.firstBlock)
      ensures !flags.lower16 && !flags.lower1 ==> End(rs[i]) <= End(rs[k])
      ensures flags.lower16 || flags.lower1 ==> End(rs[k]) <= End(rs[i])
    {
      assert Usable(rs[i], pages, flags);
      if i < k { Ordered(rs, i, k); }
      if k < i { Ordered(rs, k, i); }
    }

    /** The test of the low-memory flags is on the start of the range, and counts the whole request. */
    lemma LowEnoughMeans(b: Block, pages: nat, flags: Flags)
      ensures LowEnough(b, pages, flags) <==>
                !(flags.lower16 && b.base + pages > boundary16) && !(flags.lower1 && b.base + pages > boundary1)
    {
    }

    method AllocPages(pages: nat, flags: Flags) returns (r: PageResult, ghost k: nat)
      requires Canonical(ranges)
      modifies this`ranges
      ensures Canonical(ranges)
      ensures r.NoPages? ==> ranges == old(ranges)
      ensures r.NoPages? <==> (forall i | 0 <= i < |old(ranges)| :: !Usable(old(ranges)[i], pages, flags))
                              || (Chosen(old(ranges), pages, flags, k) && !LowEnough(old(ranges)[k], pages, flags))
      ensures r.Got? ==> Chosen(old(ranges), pages, flags, k) && LowEnough(old(ranges)[k], pages, flags)
                         && r.pages == Min(pages, old(ranges)[k].len) && r.addr + r.pages == End(old(ranges)[k])
                         && Took(old(ranges), Block(r.addr, r.pages), ranges)
                         && |ranges| == |old(ranges)| - (if r.pages == old(ranges)[k].len then 1 else 0)
                         && (r.pages == old(ranges)[k].len ==> ranges == Removed(old(ranges), k))
      // the block: all of the request, or all of a smaller range if any block will do
      ensures r.Got? ==> r.pages == if old(ranges)[k].len >= pages then pages else old(ranges)[k].len
      ensures r.Got? ==> r.pages == pages || flags.firstBlock
      // its range: of those that would do, the highest one, but the lowest for a low-memory request
      ensures r.Got? && !flags.lower16 && !flags.lower1 ==>
                forall i | 0 <= i < |old(ranges)| && (old(ranges)[i].len >= pages || flags.firstBlock) ::
                  End(old(ranges)[i]) <= r.addr + r.pages
      ensures r.Got? && (flags.lower16 || flags.lower1) ==>
                forall i | 0 <= i < |old(ranges)| && (old(ranges)[i].len >= pages || flags.firstBlock) ::
                  r.addr + r.pages <= End(old(ranges)[i])
      // the test of the low-memory flags is on the start of that range
      ensures r.Got? && flags.lower16 ==> old(ranges)[k].base + pages <= boundary16
      ensures r.Got? && flags.lower1 ==> old(ranges)[k].base + pages <= boundary1
    {
      k := 0;
      var i := FindRange(pages, flags);
      if i == -1 { return NoPages, k; }
      k := i;
      ChosenMeans(ranges, pages, flags, k);
      hide Canonical, Chosen, Took, Usable, LowEnough;
      var pr := ranges[i];
      LowEnoughMeans(pr, pages, flags);
      if !LowEnough(pr, pages, flags) { return NoPages, k; }
      var take := if pr.len < pages then pr.len else pages;
      var mem := End(pr) - take;
      if pr.len == take {
        RemoveKeeps(ranges, i);
        ranges := Removed(ranges, i);
      } else {
        ShrinkKeeps(ranges, i, Block(mem, take), Block(pr.base, pr.len - take));
        ranges := ranges[i := Block(pr.base, pr.len - take)];
      }
      r := Got(mem, take);
    }

    /** The first half of free_pages: grow the higher neighbour downwards, or insert a new range. */
    method AddRange(pageno: nat, npages: nat) returns (pr: int)
      requires Canonical(ranges) && npages > 0 && Units(Block(pageno, npages)) !! FreeSet(ranges)
      modifies this`ranges
      ensures 0 <= pr < |ranges| && Loose(ranges, if pr == 0 then 0 else pr - 1, pr)
      ensures FreeSet(ranges) == old(FreeSet(ranges)) + Units(Block(pageno, npages))
      ensures |ranges| == |old(ranges)| + if StartsAt(old(ranges), pageno + npages) then 0 else 1
      ensures EndsAt(old(ranges), pageno) <==> pr > 0 && End(ranges[pr - 1]) == ranges[pr].base
    {
      ghost var b := Block(pageno, npages);
      var h := FindBase(ranges, pageno + npages);
      hide FreeSet, Units, Loose, Canonical, Inserted, EndsAt;
      if h != -1 {
        GrownRange(ranges, b, h);
        ranges := ranges[h := Block(pageno, ranges[h].len + npages)];
        pr := h;
      } else {
        pr := Place(ranges, pageno);
        InsertedRange(ranges, b, pr);
        ranges := Inserted(ranges, pr, Block(pageno, npages));
      }
    }

    /** The second half: absorb range pr into its lower neighbour if they touch. */
    method MergeDown(pr: nat)
      requires pr < |ranges| && Loose(ranges, if pr == 0 then 0 else pr - 1, pr)
      modifies this`ranges
      ensures Canonical(ranges) && FreeSet(ranges) == old(FreeSet(ranges))
      ensures |ranges| == |old(ranges)| - if pr > 0 && End(old(ranges)[pr - 1]) == old(ranges)[pr].base then 1 else 0
    {
      hide FreeSet, Loose, Canonical, Joined;
      MergeLow(ranges, pr);
      if pr > 0 && End(ranges[pr - 1]) == ranges[pr].base {
        ranges := Joined(ranges, pr - 1);
      }
    }

    method FreePages(pageno: nat, npages: nat)
      requires Canonical(ranges) && npages > 0 && Units(Block(pageno, npages)) !! FreeSet(ranges)
      modifies this`ranges
      ensures Gave(old(ranges), Block(pageno, npages), ranges)
      ensures |ranges| == |old(ranges)| + 1 - (if StartsAt(old(ranges), pageno + npages) then 1 else 0)
                                            - (if EndsAt(old(ranges), pageno) then 1 else 0)
    {
      hide FreeSet, Units, Loose, Canonical, StartsAt, EndsAt;
      var pr := AddRange(pageno, npages);
      MergeDown(pr);
    }

    /** free_mem_list with `all` set. */
    method FreeMemList(list: seq<Block>)
      requires Canonical(ranges) && Disjoint(list) && FreeSet(list) !! FreeSet(ranges)
      requires forall i | 0 <= i < |list| :: list[i].len > 0
      modifies this`ranges
      ensures Canonical(ranges) && FreeSet(ranges) == old(FreeSet(ranges)) + FreeSet(list)
    {
      hide FreeSet, Units, Canonical;
      var i := 0;
      assert list[0..] == list;
      while i < |list|
        invariant 0 <= i <= |list| && Canonical(ranges)
        invariant FreeSet(list[i..]) !! FreeSet(ranges)
        invariant FreeSet(ranges) + FreeSet(list[i..]) == old(FreeSet(ranges)) + FreeSet(list)
      {
        DropFirst(list[i..]);
        assert list[i..][1..] == list[i + 1..];
        FreePages(list[i].base, list[i].len);
        i := i + 1;
      }
      DropNone(list[i..]);
    }

    /** The rest of VM gives back its next batch of blocks. */
    method FreeYielded() returns (freed: nat)
      requires Valid()
      modifies this
      ensures Valid()
      ensures Canonical(ranges)
      ensures old(reclaimable) == [] ==> freed == 0 && ranges == old(ranges) && reclaimable == []
      ensures old(reclaimable) != [] ==>
                && reclaimable == old(reclaimable)[1..]
                && freed == Total(old(reclaimable)[0])
                && FreeSet(ranges) == old(FreeSet(ranges)) + FreeSet(old(reclaimable)[0])
    {
      if reclaimable == [] { return 0; }
      var batch := reclaimable[0];
      FlatSplit(reclaimable);
      hide FreeSet, Units, Canonical;
      FreeMemList(batch);
      reclaimable := reclaimable[1..];
      freed := Total(batch);
    }

    /** free_yielded in the midst of an allocation: the next batch comes back, and nothing collected is touched. */
    method Refill(ghost list: seq<Block>, ghost start: seq<Block>, ghost yielded0: seq<Block>)
      returns (freed: nat, ghost yielded: seq<Block>)
      requires Holding(ranges, reclaimable, list, start, yielded0)
      modifies this
      ensures Holding(ranges, reclaimable, list, start, yielded)
      ensures Total(ranges) + Reclaim(reclaimable) == old(Total(ranges) + Reclaim(reclaimable)) || freed == 0
      ensures freed == 0 ==> old(Reclaim(reclaimable)) == 0 && Total(ranges) == old(Total(ranges))
      ensures yielded + Flat(reclaimable) == yielded0 + Flat(old(reclaimable))
      ensures old(reclaimable) == [] ==> freed == 0 && reclaimable == [] && ranges == old(ranges)
      ensures old(reclaimable) != [] ==>
                && reclaimable == old(reclaimable)[1..] && freed == Total(old(reclaimable)[0])
                && CameBack(old(ranges), old(reclaimable)[0], ranges)
    {
      hide FreeSet, Units, Canonical, Disjoint, Separate, Took, Total, Flat;
      ghost var before, batches := ranges, reclaimable;
      freed := FreeYielded();
      YieldBatch(before, ranges, batches, list, start, yielded0);
      yielded := if batches != [] then yielded0 + batches[0] else yielded0;
    }

    /** One call of alloc_pages in the midst of an allocation. */
    method TryGrant(rem: nat, flags: Flags, ghost list: seq<Block>, ghost start: seq<Block>, ghost yielded: seq<Block>)
      returns (r: PageResult)
      requires rem > 0 && Holding(ranges, reclaimable, list, start, yielded)
      modifies this`ranges
      ensures r.Got? <==> Grants(old(ranges), rem, flags)
      ensures r.Got? ==> 0 < r.pages <= rem && (flags.firstBlock || r.pages == rem)
      ensures r.Got? ==> Holding(ranges, reclaimable, [Block(r.addr, r.pages)] + list, start, yielded)
      ensures r.Got? ==> Total(ranges) + r.pages == old(Total(ranges))
      ensures r.Got? ==> (Supplies(old(ranges), rem, flags) <==> Supplies(ranges, rem - r.pages, flags))
      ensures r.Got? ==> GrantList(old(ranges), rem, flags)
                         == GrantList(ranges, rem - r.pages, flags) + [Block(r.addr, r.pages)]
      ensures r.NoPages? ==> ranges == old(ranges) && (flags == Flags(false, false, true) ==> Total(ranges) == 0)
    {
      hide FreeSet, Units, Canonical, Disjoint, Separate, Took, Total, Flat, Supplies, Grants, Chosen, LowEnough,
           Holding, GrantList;
      ghost var before, k := ranges, 0;
      HeldRanges(ranges, reclaimable, list, start, yielded);
      r, k := AllocPages(rem, flags);
      if r.Got? {
        SuppliesStep(before, rem, flags, k, r.pages, ranges);
        ChosenGrants(before, rem, flags, k);
        ChosenInside(before, rem, flags, k);
        GrantListStep(before, rem, flags, k, r.addr, r.pages, ranges);
        assert before[k].len > 0;
        TakePiece(before, ranges, reclaimable, list, start, yielded, Block(r.addr, r.pages));
      } else {
        if forall i | 0 <= i < |before| :: !Usable(before[i], rem, flags) {
          NothingGranted(before, rem, flags);
        } else {
          ChosenGrants(before, rem, flags, k);
        }
        AllUsable(before, rem, flags);
        if before != [] { UsableUnflagged(before, rem); }
      }
    }

    lemma UsableUnflagged(rs: seq<Block>, rem: nat)
      requires rs != []
      ensures Grants(rs, rem, Flags(false, false, true))
    {
      LastChosen(rs, rem);
      ChosenGrants(rs, rem, Flags(false, false, true), |rs| - 1);
    }

    /** The free ranges at each attempt so far, when `rest` is left of the batches in `all`: one batch came back after
        every attempt but the last, and each of those attempts was refused. */
    ghost predicate Trail(tried: seq<seq<Block>>, start: seq<Block>, all: seq<seq<Block>>, rest: seq<seq<Block>>,
                          rem: nat, flags: Flags)
    {
      && Reclaimed(tried, start, all) && rest == all[|tried| - 1..]
      && forall i | 0 <= i < |tried| - 1 :: !Grants(tried[i], rem, flags)
    }

    lemma TrailStart(start: seq<Block>, all: seq<seq<Block>>, rem: nat, flags: Flags)
      ensures Trail([start], start, all, all, rem, flags)
    {
    }

    lemma TrailNext(tried: seq<seq<Block>>, start: seq<Block>, all: seq<seq<Block>>, rest: seq<seq<Block>>,
                    rem: nat, flags: Flags, next: seq<Block>)
      requires Trail(tried, start, all, rest, rem, flags) && tried != [] && rest != []
      requires !Grants(tried[|tried| - 1], rem, flags) && CameBack(tried[|tried| - 1], rest[0], next)
      ensures Trail(tried + [next], start, all, rest[1..], rem, flags)
      ensures |tried| - 1 < |all| && all[|tried| - 1] == rest[0]
    {
      hide Grants, CameBack;
      ReclaimedMore(tried, start, all, next);
      hide Reclaimed;
      var more := tried + [next];
      assert forall i | 0 <= i < |more| - 1 :: more[i] == tried[i];
      assert rest[1..] == all[|more| - 1..];
    }

    lemma TrailEnds(tried: seq<seq<Block>>, start: seq<Block>, all: seq<seq<Block>>, rest: seq<seq<Block>>,
                    rem: nat, flags: Flags)
      requires Trail(tried, start, all, rest, rem, flags) && rem > 0
      ensures tried != [] && (rest == all ==> |tried| == 1 && tried[0] == start)
      ensures Supplies(start, rem, flags) ==>
                rest == all && |tried| == 1 && tried[0] == start && Grants(start, rem, flags)
      ensures all == [] ==> rest == []
    {
      hide Grants, Supplies, CameBack;
      assert |rest| == |all| - (|tried| - 1);
      assert |tried| > 1 ==> !Grants(tried[0], rem, flags);
      if Supplies(start, rem, flags) { SuppliesGrants(start, rem, flags); }
    }

    /** One call of alloc_pages, repeated as long as it fails and free_yielded frees something. */
    method Grab(rem: nat, flags: Flags, ghost list: seq<Block>, ghost start: seq<Block>, ghost yielded0: seq<Block>)
      returns (r: PageResult, ghost yielded: seq<Block>, ghost tried: seq<seq<Block>>)
      requires rem > 0 && Holding(ranges, reclaimable, list, start, yielded0)
      modifies this
      ensures r.Got? ==> 0 < r.pages <= rem
                         && Holding(ranges, reclaimable, [Block(r.addr, r.pages)] + list, start, yielded)
      ensures r.Got? && !flags.firstBlock ==> r.pages == rem
      ensures r.NoPages? ==> Holding(ranges, reclaimable, list, start, yielded)
      ensures yielded + Flat(reclaimable) == yielded0 + Flat(old(reclaimable))
      ensures r.Got? ==> Total(ranges) + r.pages + Reclaim(reclaimable) == old(Total(ranges) + Reclaim(reclaimable))
      ensures r.NoPages? && flags == Flags(false, false, true) ==> old(Total(ranges) + Reclaim(reclaimable)) == 0
      // one batch comes back after every refusal, and after nothing else; it gives up when one brings nothing
      ensures tried != [] && Trail(tried, old(ranges), old(reclaimable), reclaimable, rem, flags)
      ensures r.Got? ==> Grants(tried[|tried| - 1], rem, flags)
      ensures r.NoPages? ==>
                || reclaimable == []
                || (1 < |tried| <= |old(reclaimable)| + 1 && Total(old(reclaimable)[|tried| - 2]) == 0)
      // so nothing is reclaimed for a request that the free ranges supply
      ensures reclaimable == old(reclaimable) && r.Got? ==>
                (Supplies(old(ranges), rem, flags) <==> Supplies(ranges, rem - r.pages, flags))
      ensures Supplies(old(ranges), rem, flags) ==> r.Got? && reclaimable == old(reclaimable)
      ensures Supplies(old(ranges), rem, flags) ==>
                GrantList(old(ranges), rem, flags) == GrantList(ranges, rem - r.pages, flags) + [Block(r.addr, r.pages)]
      ensures old(reclaimable) == [] ==> reclaimable == []
    {
      hide FreeSet, Units, Total, Flat, Supplies, Grants, Holding, CameBack, Reclaim, Trail, GrantList;
      TrailStart(ranges, reclaimable, rem, flags);
      yielded, tried := yielded0, [ranges];
      while true
        invariant Holding(ranges, reclaimable, list, start, yielded)
        invariant Total(ranges) + Reclaim(reclaimable) == old(Total(ranges) + Reclaim(reclaimable))
        invariant yielded + Flat(reclaimable) == yielded0 + Flat(old(reclaimable))
        invariant tried != [] && tried[|tried| - 1] == ranges
        invariant Trail(tried, old(ranges), old(reclaimable), reclaimable, rem, flags)
        decreases |reclaimable|
      {
        ghost var batches := reclaimable;
        r := TryGrant(rem, flags, list, start, yielded);
        TrailEnds(tried, old(ranges), old(reclaimable), reclaimable, rem, flags);
        if r.Got? { return; }
        var freed;
        freed, yielded := Refill(list, start, yielded);
        if batches != [] {
          TrailNext(tried, old(ranges), old(reclaimable), batches, rem, flags, ranges);
          tried := tried + [ranges];
        }
        if freed == 0 { return; }
      }
    }

    /** Gives back the pieces collected so far. */
    method Abandon(list: seq<Block>, ghost start: seq<Block>, ghost yielded: seq<Block>)
      requires Holding(ranges, reclaimable, list, start, yielded) && Canonical(start)
      modifies this`ranges
      ensures Valid() && FreeSet(ranges) == FreeSet(start) + FreeSet(yielded) && (yielded == [] ==> ranges == start)
    {
      GiveUp(ranges, reclaimable, list, start, yielded);
      hide Holding, Separate, Canonical, FreeSet, Disjoint;
      FreeMemList(list);
      Restored(ranges, start, yielded);
    }

    /** Gives back the pieces in the list, then the one that no list node was left for. */
    method AbandonPiece(addr: nat, pages: nat, list: seq<Block>, ghost start: seq<Block>, ghost yielded: seq<Block>)
      requires Holding(ranges, reclaimable, [Block(addr, pages)] + list, start, yielded) && Canonical(start)
      modifies this`ranges
      ensures Valid() && FreeSet(ranges) == FreeSet(start) + FreeSet(yielded) && (yielded == [] ==> ranges == start)
    {
      hide Holding, Separate, Canonical, FreeSet, Units, Disjoint;
      GiveUpPiece(ranges, reclaimable, Block(addr, pages), list, start, yielded);
      FreeMemList(list);
      FreePages(addr, pages);
      Restored(ranges, start, yielded);
    }

    /** alloc_mem_in_list for `pages` pages; `slab` bounds how many list nodes SLABALLOC will grant. */
    method AllocMemInList(pages: nat, contig: bool, low: Flags, slab: nat)
      returns (result: ListResult, ghost yielded: seq<Block>)
      requires pages > 0 && !low.firstBlock && Valid()
      modifies this
      ensures Valid()
      ensures yielded + Flat(reclaimable) == Flat(old(reclaimable))
      // all: the pieces are non-empty, disjoint, were free or came back during the call, and add up to the request
      ensures result.Pieces? ==> Holding(ranges, reclaimable, result.list, old(ranges), yielded)
                                 && Total(result.list) == pages && |result.list| <= slab
                                 && (contig ==> |result.list| == 1)
      // or nothing: what is free is what was free and what came back during the call
      ensures !result.Pieces? ==> FreeSet(ranges) == old(FreeSet(ranges)) + FreeSet(yielded)
      ensures !result.Pieces? && yielded == [] ==> ranges == old(ranges)
      // list nodes run out only when there are fewer of them than pages
      ensures result.OutOfSlab? ==> slab < pages
      // with no contiguity or low-memory demand, memory runs out exactly when there is too little of it
      ensures !contig && low == Flags(false, false, false) && !result.OutOfSlab? ==>
                (result.Pieces? <==> pages <= old(Total(ranges) + Reclaim(reclaimable)))
      // so with a node for every page the call succeeds exactly when enough pages are free or reclaimable
      ensures !contig && low == Flags(false, false, false) && slab >= pages ==>
                (result.Pieces? <==> pages <= old(Total(ranges) + Reclaim(reclaimable)))
      // for any flags, with nothing to reclaim: it succeeds exactly when the grants of the free ranges add up
      ensures contig && result.OutOfSlab? ==> slab == 0
      ensures old(reclaimable) == [] && (if contig then slab >= 1 else slab >= pages) ==>
                (result.Pieces? <==> Supplies(old(ranges), pages, if contig then low else low.(firstBlock := true)))
      // and when they do, nothing is reclaimed, whatever there is to reclaim
      ensures Supplies(old(ranges), pages, if contig then low else low.(firstBlock := true)) ==>
                && reclaimable == old(reclaimable) && yielded == []
                && ((if contig then slab >= 1 else slab >= pages) ==> result.Pieces?)
                && (result.Pieces? ==>
                      result.list == GrantList(old(ranges), pages, if contig then low else low.(firstBlock := true)))
    {
      hide FreeSet, Units, Canonical, Disjoint, Separate, Total, Supplies, Grants, Reclaimed, Reclaim, Flat, GrantList,
           Trail;
      var flags := if contig then low else low.(firstBlock := true);
      var rem, list, nodes := pages, [], slab;
      yielded := [];
      StartHolding(ranges, reclaimable);
      while rem > 0
        invariant 0 <= rem <= pages && 0 <= nodes && Total(list) == pages - rem && nodes + |list| == slab
        invariant |list| <= pages - rem
        invariant Holding(ranges, reclaimable, list, old(ranges), yielded)
        invariant yielded + Flat(reclaimable) == Flat(old(reclaimable))
        invariant Total(ranges) + Total(list) + Reclaim(reclaimable) == old(Total(ranges) + Reclaim(reclaimable))
        invariant contig ==> |list| == if rem == 0 then 1 else 0
        invariant contig ==> rem == pages || rem == 0
        invariant old(reclaimable) == [] ==> reclaimable == []
        invariant old(reclaimable) == [] ==> (Supplies(old(ranges), pages, flags) <==> Supplies(ranges, rem, flags))
        invariant Supplies(old(ranges), pages, flags) ==>
                    && reclaimable == old(reclaimable) && yielded == [] && Supplies(ranges, rem, flags)
                    && GrantList(old(ranges), pages, flags) == GrantList(ranges, rem, flags) + list
      {
        var r;
        ghost var list0 := list;
        ghost var tried, before := [], yielded;
        r, yielded, tried := Grab(rem, flags, list, old(ranges), yielded);
        SameYield(before, yielded, Flat(reclaimable));
        if r.NoPages? {
          Abandon(list, old(ranges), yielded);
          return OutOfMemory, yielded;
        }
        ghost var b := Block(r.addr, r.pages);
        TotalCons(b, list);
        if nodes == 0 {
          AbandonPiece(r.addr, r.pages, list, old(ranges), yielded);
          return OutOfSlab, yielded;
        }
        nodes := nodes - 1;
        Regroup(GrantList(ranges, rem - r.pages, flags), b, list);
        list := [Block(r.addr, r.pages)] + list;
        rem := rem - r.pages;
      }
      NoneSupplied(ranges, flags);
      NoGrants(ranges, flags);
      result := Pieces(list);
    }
  }
}
