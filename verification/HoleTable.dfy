/** The hole table of minix/alloc.c: an array of slots threaded into two singly linked lists,
    the address-ordered hole list and the list of unused slots. */
module SlotLists {
  import opened SeqEdits

  const NIL: int := -1

  function After(s: seq<int>, i: nat): int {
    if i + 1 < |s| then s[i + 1] else NIL
  }

  /** The slots `s` in order form the list that starts at `first`. */
  predicate Chain(next: seq<int>, first: int, s: seq<int>) {
    && (forall i | 0 <= i < |s| :: 0 <= s[i] < |next|)
    && (forall i, j | 0 <= i < j < |s| :: s[i] != s[j])
    && first == (if s == [] then NIL else s[0])
    && (forall i | 0 <= i < |s| :: next[s[i]] == After(s, i))
  }

  predicate Apart(s: seq<int>, t: seq<int>) {
    forall i, j | 0 <= i < |s| && 0 <= j < |t| :: s[i] != t[j]
  }

  /** A store to a slot outside a list leaves the list alone. */
  lemma ChainFrame(next: seq<int>, first: int, s: seq<int>, x: int, v: int)
    requires Chain(next, first, s) && 0 <= x < |next| && forall i | 0 <= i < |s| :: s[i] != x
    ensures Chain(next[x := v], first, s)
  {
  }

  lemma ChainPush(next: seq<int>, first: int, s: seq<int>, x: int)
    requires Chain(next, first, s) && 0 <= x < |next| && forall i | 0 <= i < |s| :: s[i] != x
    ensures Chain(next[x := first], x, [x] + s)
  {
    ChainFrame(next, first, s, x, first);
    var t := [x] + s;
    assert forall i | 0 < i < |t| :: t[i] == s[i - 1];
  }

  lemma ChainPop(next: seq<int>, first: int, s: seq<int>)
    requires Chain(next, first, s) && s != []
    ensures first == s[0] && Chain(next, next[first], s[1..])
  {
    var t := s[1..];
    assert forall i | 0 <= i < |t| :: t[i] == s[i + 1] && After(t, i) == After(s, i + 1);
    assert next[s[0]] == After(s, 0);
  }

  lemma RemovedDistinct(s: seq<int>, k: nat)
    requires k < |s| && forall i, j | 0 <= i < j < |s| :: s[i] != s[j]
    ensures var t := Removed(s, k); forall i, j | 0 <= i < j < |t| :: t[i] != t[j]
  {
  }

  lemma ChainUnlink(next: seq<int>, first: int, s: seq<int>, k: nat)
    requires Chain(next, first, s) && 0 < k < |s|
    ensures Chain(next[s[k - 1] := next[s[k]]], first, Removed(s, k))
  {
    var t := Removed(s, k);
    RemovedDistinct(s, k);
    assert t[0] == s[0];
    forall i | 0 <= i < |t| ensures next[s[k - 1] := next[s[k]]][t[i]] == After(t, i) {
      ChainUnlinkAt(next, first, s, k, i);
    }
  }

  lemma ChainUnlinkAt(next: seq<int>, first: int, s: seq<int>, k: nat, i: nat)
    requires Chain(next, first, s) && 0 < k < |s| && i < |s| - 1
    ensures var t := Removed(s, k); next[s[k - 1] := next[s[k]]][t[i]] == After(t, i)
  {
    assert next[s[k]] == After(s, k);
    var j := if i < k then i else i + 1;
    assert next[s[j]] == After(s, j);
  }

  lemma InsertedDistinct(s: seq<int>, k: nat, x: int)
    requires k <= |s| && (forall i, j | 0 <= i < j < |s| :: s[i] != s[j]) && forall i | 0 <= i < |s| :: s[i] != x
    ensures var t := Inserted(s, k, x); forall i, j | 0 <= i < j < |t| :: t[i] != t[j]
  {
  }

  lemma ChainInsert(next: seq<int>, first: int, s: seq<int>, k: nat, x: int)
    requires Chain(next, first, s) && 0 < k <= |s| && 0 <= x < |next| && forall i | 0 <= i < |s| :: s[i] != x
    ensures Chain(next[x := next[s[k - 1]]][s[k - 1] := x], first, Inserted(s, k, x))
  {
    hide After;
    var t := Inserted(s, k, x);
    InsertedDistinct(s, k, x);
    forall i | 0 <= i < |t| ensures next[x := next[s[k - 1]]][s[k - 1] := x][t[i]] == After(t, i) {
      ChainInsertAt(next, first, s, k, x, i);
    }
  }

  lemma ChainInsertAt(next: seq<int>, first: int, s: seq<int>, k: nat, x: int, i: nat)
    requires Chain(next, first, s) && 0 < k <= |s| && 0 <= x < |next| && i <= |s|
    requires forall i | 0 <= i < |s| :: s[i] != x
    ensures var t := Inserted(s, k, x);
            0 <= t[i] < |next| && next[x := next[s[k - 1]]][s[k - 1] := x][t[i]] == After(t, i)
  {
    var t := Inserted(s, k, x);
    assert next[s[k - 1]] == After(s, k - 1);
    if i < k {
      assert t[i] == s[i] && next[s[i]] == After(s, i);
    } else if i > k {
      assert t[i] == s[i - 1] && next[s[i - 1]] == After(s, i - 1);
    }
  }

  lemma ApartMove(s: seq<int>, t: seq<int>, k: nat)
    requires Apart(s, t) && k < |s| && forall i, j | 0 <= i < j < |s| :: s[i] != s[j]
    ensures Apart(Removed(s, k), [s[k]] + t)
    ensures forall i | 0 <= i < |t| :: t[i] != s[k]
    ensures forall i | 0 <= i < |s| - 1 :: Removed(s, k)[i] != s[k]
  {
    var r := Removed(s, k);
    assert forall i | 0 <= i < |r| :: r[i] == s[if i < k then i else i + 1];
  }

  /** Two lists that share no slot and together use every slot of the table. */
  predicate TwoLists(next: seq<int>, head: int, s: seq<int>, free: int, u: seq<int>) {
    Chain(next, head, s) && Chain(next, free, u) && Apart(s, u) && |next| == |s| + |u|
  }

  /** del_slot: element k of the first list becomes the head of the second. */
  lemma UnlinkSlot(next: seq<int>, head: int, s: seq<int>, free: int, u: seq<int>, k: nat)
    requires TwoLists(next, head, s, free, u) && k < |s|
    ensures (s[k] == head) == (k == 0)
    ensures 0 <= s[k] < |next| && (k > 0 ==> 0 <= s[k - 1] < |next|)
    ensures var n := if k == 0 then next else next[s[k - 1] := next[s[k]]];
            TwoLists(n[s[k] := free], if k == 0 then next[s[k]] else head, Removed(s, k), s[k], [s[k]] + u)
  {
    var x := s[k];
    ApartMove(s, u, k);
    if k == 0 {
      ChainPop(next, head, s);
      assert s[1..] == Removed(s, k);
      ChainFrame(next, next[x], Removed(s, k), x, free);
      ChainPush(next, free, u, x);
    } else {
      ApartMove(s, u, k - 1);
      ChainUnlink(next, head, s, k);
      ChainFrame(next, free, u, s[k - 1], next[x]);
      var n := next[s[k - 1] := next[x]];
      ChainFrame(n, head, Removed(s, k), x, free);
      ChainPush(n, free, u, x);
    }
  }

  /** The head of the second list becomes element k of the first. */
  lemma LinkSlot(next: seq<int>, head: int, s: seq<int>, free: int, u: seq<int>, k: nat)
    requires TwoLists(next, head, s, free, u) && k <= |s| && u != []
    ensures 0 <= free < |next| && u[0] == free && (k > 0 ==> 0 <= s[k - 1] < |next|)
    ensures var n := if k == 0 then next[free := head] else next[free := next[s[k - 1]]][s[k - 1] := free];
            TwoLists(n, if k == 0 then free else head, Inserted(s, k, free), next[free], u[1..])
  {
    ChainPop(next, free, u);
    ApartInsert(s, u, k);
    if k == 0 {
      ChainPush(next, head, s, free);
      assert [free] + s == Inserted(s, 0, free);
      ChainFrame(next, next[free], u[1..], free, head);
    } else {
      LinkInner(next, head, s, free, u, k);
    }
  }

  lemma LinkInner(next: seq<int>, head: int, s: seq<int>, free: int, u: seq<int>, k: nat)
    requires Chain(next, head, s) && Chain(next, free, u) && Apart(s, u) && 0 < k <= |s| && u != []
    ensures var n := next[free := next[s[k - 1]]][s[k - 1] := free];
            Chain(n, head, Inserted(s, k, free)) && Chain(n, next[free], u[1..])
  {
    ChainPop(next, free, u);
    ApartInsert(s, u, k);
    ChainInsert(next, head, s, k, free);
    var v := next[s[k - 1]];
    ChainFrame(next, next[free], u[1..], free, v);
    ChainFrame(next[free := v], next[free], u[1..], s[k - 1], free);
  }

  lemma ApartInsert(s: seq<int>, u: seq<int>, k: nat)
    requires Apart(s, u) && k <= |s| && u != [] && forall i, j | 0 <= i < j < |u| :: u[i] != u[j]
    ensures Apart(Inserted(s, k, u[0]), u[1..])
    ensures forall i | 0 <= i < |s| :: s[i] != u[0]
    ensures forall j | 0 <= j < |u| - 1 :: u[1..][j] != u[0]
    ensures forall i, j | 0 <= i < |s| && 0 <= j < |u| - 1 :: u[1..][j] != s[i]
  {
    assert forall j | 0 <= j < |u| - 1 :: u[1..][j] == u[j + 1];
  }

  /** The last loop of holes_sanity_f: a slot is on one list or the other, never on both or neither. */
  lemma EverySlotOnOneList(next: seq<int>, head: int, s: seq<int>, free: int, u: seq<int>)
    requires TwoLists(next, head, s, free, u)
    ensures forall x | 0 <= x < |next| :: x in s <==> x !in u
  {
    PartitionOfRange(s, u, |next|);
  }

  ghost function Elements(s: seq<int>): (e: set<int>)
    ensures forall x :: x in e <==> x in s
  {
    set x | x in s
  }

  lemma PartitionOfRange(s: seq<int>, u: seq<int>, n: nat)
    requires (forall x | x in s || x in u :: 0 <= x < n) && |s| + |u| == n && Apart(s, u)
    requires (forall i, j | 0 <= i < j < |s| :: s[i] != s[j]) && forall i, j | 0 <= i < j < |u| :: u[i] != u[j]
    ensures forall x | 0 <= x < n :: x in s <==> x !in u
  {
    DistinctCount(s);
    DistinctCount(u);
    ApartElements(s, u);
    SubsetOfEqualSize(Elements(s) + Elements(u), Below(n));
    assert forall x | 0 <= x < n :: x in Below(n);
  }

  lemma ApartElements(s: seq<int>, u: seq<int>)
    requires Apart(s, u)
    ensures Elements(s) !! Elements(u)
  {
  }

  ghost function Below(n: nat): (r: set<int>)
    ensures |r| == n && forall x :: x in r <==> 0 <= x < n
  {
    if n == 0 then {} else Below(n - 1) + {n - 1}
  }

  lemma {:induction false} DistinctCount(s: seq<int>)
    requires forall i, j | 0 <= i < j < |s| :: s[i] != s[j]
    ensures |Elements(s)| == |s|
  {
    if s != [] {
      var t := s[..|s| - 1];
      DistinctCount(t);
      assert Elements(s) == Elements(t) + {s[|s| - 1]};
    }
  }

  lemma SubsetOfEqualSize(a: set<int>, b: set<int>)
    requires a <= b && |a| == |b|
    ensures a == b
  {
    assert |b - a| == |b| - |a|;
  }
}

module HoleTables {
  import opened SeqEdits
  import opened FreeLists
  import opened SlotLists

  datatype AllocResult = NoMem | Mem(base: nat) | TableFull(bitten: nat)

  /** The slots `s` hold the blocks `bs`. */
  predicate Holds(base: seq<nat>, len: seq<nat>, s: seq<int>, bs: seq<Block>) {
    && |bs| == |s|
    && (forall i | 0 <= i < |s| :: 0 <= s[i] < |base| && 0 <= s[i] < |len|)
    && (forall i | 0 <= i < |s| :: bs[i] == Block(base[s[i]], len[s[i]]))
  }

  lemma HoldsRemoved(base: seq<nat>, len: seq<nat>, s: seq<int>, bs: seq<Block>, k: nat, x: nat)
    requires Holds(base, len, s, bs) && k < |s| && |base| == |len| && s[k] == x
    requires forall i, j | 0 <= i < j < |s| :: s[i] != s[j]
    ensures Holds(base[x := 0], len[x := 0], Removed(s, k), Removed(bs, k))
  {
    var t := Removed(s, k);
    forall i | 0 <= i < |t|
      ensures 0 <= t[i] < |base| && Removed(bs, k)[i] == Block(base[x := 0][t[i]], len[x := 0][t[i]])
    {
      var j := if i < k then i else i + 1;
      assert t[i] == s[j] && s[j] != s[k] && Removed(bs, k)[i] == bs[j];
    }
  }

  lemma HoldsGrow(base: seq<nat>, len: seq<nat>, s: seq<int>, bs: seq<Block>, k: nat, n: nat)
    requires Holds(base, len, s, bs) && k < |s| && forall i, j | 0 <= i < j < |s| :: s[i] != s[j]
    ensures Holds(base, len[s[k] := n], s, bs[k := Block(bs[k].base, n)])
  {
  }

  lemma HoldsInsert(base: seq<nat>, len: seq<nat>, s: seq<int>, bs: seq<Block>, k: nat, x: nat, b: Block)
    requires Holds(base, len, s, bs) && k <= |s| && x < |base| == |len| && forall i | 0 <= i < |s| :: s[i] != x
    ensures Holds(base[x := b.base], len[x := b.len], Inserted(s, k, x), Inserted(bs, k, b))
  {
  }

  /** Biting n clicks off the front of hole k, which is deleted when nothing is left. */
  lemma BiteKeeps(bs: seq<Block>, k: nat, n: nat)
    requires Canonical(bs) && k < |bs| && n <= bs[k].len
    ensures var bitten := bs[k := Block(bs[k].base + n, bs[k].len - n)];
            Took(bs, Block(bs[k].base, n), if n == bs[k].len then Removed(bitten, k) else bitten)
  {
    if n == bs[k].len {
      RemoveKeeps(bs, k);
      assert Removed(bs[k := Block(bs[k].base + n, bs[k].len - n)], k) == Removed(bs, k);
      assert bs[k] == Block(bs[k].base, n);
    } else {
      ShrinkKeeps(bs, k, Block(bs[k].base, n), Block(bs[k].base + n, bs[k].len - n));
    }
  }

  /** Whether the click behind the piece bitten off is free says whether the hole is used up. */
  lemma RestOfHole(bs: seq<Block>, k: nat, n: nat)
    requires Canonical(bs) && k < |bs| && 0 < n <= bs[k].len
    ensures bs[k].base + n in FreeSet(bs) <==> n < bs[k].len
  {
    EndNotFree(bs, k);
    assert n < bs[k].len ==> In(bs[k], bs[k].base + n);
  }

  /** The first hole that is long enough starts the lowest fit. */
  lemma FirstFitIsLowest(bs: seq<Block>, k: nat, n: nat)
    requires Canonical(bs) && k < |bs| && n <= bs[k].len && forall i | 0 <= i < k :: bs[i].len < n
    ensures LowestFit(bs, bs[k].base, n)
  {
  }

  /** The first multiple of `align` from m on; no alignment is asked for when align is 0. */
  function AlignUp(m: nat, align: nat): nat {
    if align == 0 || m % align == 0 then m else m + (align - m % align)
  }

  lemma AlignUpMultiple(m: nat, align: nat)
    requires align > 0
    ensures AlignUp(m, align) % align == 0 && m <= AlignUp(m, align) < m + align
  {
    var q, o := m / align, m % align;
    assert m == q * align + o;
    if o > 0 {
      assert m + (align - o) == (q + 1) * align;
      MultipleMod(q + 1, align);
    }
  }

  lemma MultipleMod(q: nat, d: nat)
    requires d > 0
    ensures (q * d) % d == 0
  {
    var r := (q * d) % d;
    var e := (q * d) / d;
    assert q * d == e * d + r;
    assert (q - e) * d == r;
    NoSmallMultiple(q - e, d);
  }

  lemma NoSmallMultiple(a: int, d: nat)
    requires d > 0
    ensures a >= 1 ==> a * d >= d
    ensures a <= -1 ==> a * d + d <= 0
  {
  }

  /** A successful alloc_mem of `request` clicks took the lowest block that holds request + align
      clicks and gave its unaligned front back. */
  ghost predicate Allocated(before: seq<Block>, request: nat, align: nat, start: nat, m: nat, after: seq<Block>) {
    && LowestFit(before, start, request + align)
    && m == AlignUp(start, align)
    && Took(before, Block(m, start + request + align - m), after)
  }

  lemma GiveBackFront(before: seq<Block>, mid: seq<Block>, after: seq<Block>, start: nat, m: nat, n: nat)
    requires start <= m <= start + n
    requires Took(before, Block(start, n), mid)
    requires Canonical(after) && FreeSet(after) == FreeSet(mid) + Units(Block(start, m - start))
    ensures Took(before, Block(m, start + n - m), after)
  {
  }

  ghost predicate NoFit(bs: seq<Block>, n: nat) {
    forall c: nat :: !Fits(bs, c, n)
  }

  lemma NoFitIffAllShort(bs: seq<Block>, n: nat)
    ensures NoFit(bs, n) <==> forall i | 0 <= i < |bs| :: bs[i].len < n
  {
    if i :| 0 <= i < |bs| && n <= bs[i].len {
      assert Fits(bs, bs[i].base, n);
    }
  }

  lemma SortedFrom(bs: seq<Block>, p: nat, base: nat)
    requires Canonical(bs) && p < |bs| && base <= bs[p].base
    ensures forall i | p <= i < |bs| :: base <= bs[i].base
  {
  }

  lemma HoldsBite(base: seq<nat>, len: seq<nat>, s: seq<int>, bs: seq<Block>, k: nat, n: nat)
    requires Holds(base, len, s, bs) && k < |s| && n <= bs[k].len && forall i, j | 0 <= i < j < |s| :: s[i] != s[j]
    ensures var x := s[k];
            Holds(base[x := base[x] + n], len[x := len[x] - n], s, bs[k := Block(bs[k].base + n, bs[k].len - n)])
  {
  }

  lemma NothingFree()
    ensures FreeSet([]) == {}
  {
  }

  lemma CoveredFrom(chunks: seq<Block>, i: nat)
    requires i < |chunks| && forall j, k | 0 <= j < k < |chunks| :: Units(chunks[j]) !! Units(chunks[k])
    ensures FreeSet(chunks[i..]) == FreeSet(chunks[i + 1..]) + Units(chunks[i])
    ensures Units(chunks[i]) !! FreeSet(chunks[i + 1..])
    ensures chunks[i] == Block(chunks[i].base, chunks[i].len)
    ensures chunks[i].len == 0 ==> Units(chunks[i]) == {}
  {
    var t := chunks[i..];
    assert t[1..] == chunks[i + 1..];
    forall c: nat ensures c in FreeSet(t) <==> c in FreeSet(t[1..]) || In(t[0], c) { CoveredSplit(t, c); }
    forall c: nat | c in FreeSet(t[1..]) ensures c !in Units(chunks[i]) {
      var k :| 0 <= k < |t[1..]| && In(t[1..][k], c);
      assert t[1..][k] == chunks[i + 1 + k];
      assert c in Units(chunks[i + 1 + k]);
    }
  }

  class HoleTable {
    const hNext: array<int>
    const hBase: array<nat>
    const hLen: array<nat>
    var holeHead: int
    var freeSlots: int
    ghost var slots: seq<int>   // slots on the hole list, in list order
    ghost var unused: seq<int>  // slots on the free_slots list, in list order
    ghost var holes: seq<Block> // what the hole list says

    /** The static table itself, before mem_init has threaded anything. */
    ghost predicate Shape()
    {
      && hNext != hBase as object && hNext != hLen as object && hBase != hLen
      && 0 < hNext.Length == hBase.Length == hLen.Length
    }

    constructor (n: nat)
      requires n > 0
      ensures Shape() && Size() == n && fresh(hNext) && fresh(hBase) && fresh(hLen)
    {
      hNext, hBase, hLen := new int[n], new nat[n], new nat[n];
    }

    /** Every slot is on exactly one of the two lists. */
    ghost predicate Linked()
      reads this, hNext, hBase, hLen
      ensures Linked() ==> |holes| == |slots| && Size() == |slots| + |unused| && hBase.Length == hLen.Length == Size()
      ensures Linked() ==> forall i | 0 <= i < |slots| :: 0 <= slots[i] < Size()
      ensures Linked() ==> forall i, j | 0 <= i < j < |slots| :: slots[i] != slots[j]
      ensures Linked() ==> (unused == [] <==> freeSlots == NIL) && (slots == [] <==> holeHead == NIL)
      ensures Linked() ==> unused != [] ==> freeSlots == unused[0]
      ensures Linked() ==> slots != [] ==> holeHead == slots[0]
    {
      && Shape()
      && TwoLists(hNext[..], holeHead, slots, freeSlots, unused)
      && Holds(hBase[..], hLen[..], slots, holes)
    }

    /** What holes_sanity_f asserts: also, the holes are sorted and no two touch. */
    ghost predicate Valid()
      reads this, hNext, hBase, hLen
    {
      Linked() && Canonical(holes)
    }

    method DelSlot(prev: int, hp: int, ghost k: nat)
      requires Linked() && k < |slots| && hp == slots[k] && (k > 0 ==> prev == slots[k - 1])
      modifies this, hNext, hBase, hLen
      ensures Linked() && slots == Removed(old(slots), k) && unused == [hp] + old(unused)
      ensures holes == Removed(old(holes), k)
    {
      ghost var n0, b0, l0 := hNext[..], hBase[..], hLen[..];
      UnlinkSlot(n0, holeHead, slots, freeSlots, unused, k);
      HoldsRemoved(b0, l0, slots, holes, k, hp);
      if hp == holeHead {
        holeHead := hNext[hp];
      } else {
        hNext[prev] := hNext[hp];
      }
      hNext[hp] := freeSlots;
      assert hNext[..] == (if k == 0 then n0 else n0[prev := n0[hp]])[hp := freeSlots];
      hBase[hp], hLen[hp] := 0, 0;
      assert hBase[..] == b0[hp := 0] && hLen[..] == l0[hp := 0];
      freeSlots := hp;
      slots := Removed(slots, k);
      unused := [hp] + unused;
      holes := Removed(holes, k);
    }

    /** hp swallows its successor: the two lines that merge has twice. */
    method Absorb(hp: int, next: int, ghost k: nat)
      requires Linked() && k + 1 < |slots| && hp == slots[k] && next == slots[k + 1]
      modifies this, hNext, hBase, hLen
      ensures Linked() && slots == Removed(old(slots), k + 1) && unused == [next] + old(unused)
      ensures holes == Joined(old(holes), k)
    {
      hide Linked, Joined, Removed;
      ghost var was := holes;
      Grow(hp, next, k);
      JoinedGrown(was, k, holes);
      DelSlot(hp, next, k + 1);
    }

    method Grow(hp: int, next: int, ghost k: nat)
      requires Linked() && k + 1 < |slots| && hp == slots[k] && next == slots[k + 1]
      modifies this`holes, hLen
      ensures Linked() && |holes| == |old(holes)|
      ensures holes == old(holes)[k := Block(old(holes)[k].base, old(holes)[k].len + old(holes)[k + 1].len)]
    {
      hide TwoLists, Holds;
      ghost var l0 := hLen[..];
      var n := hLen[hp] + hLen[next];
      HoldsGrow(hBase[..], l0, slots, holes, k, n);
      assert Successor(hp, k) == next;
      assert n == holes[k].len + holes[k + 1].len;
      hLen[hp] := n;
      assert hLen[..] == l0[hp := n];
      holes := holes[k := Block(holes[k].base, n)];
    }

    /** Each of the two halves of merge: absorb the successor if it touches hp, else step to it. */
    method TryAbsorb(hp: int, next: int, ghost k: nat, ghost left: nat) returns (last: int, ghost h: nat)
      requires Linked() && k + 1 < |slots| && hp == slots[k] && next == slots[k + 1]
      requires left > 0 && Loose(holes, k, k + left)
      modifies this, hNext, hBase, hLen
      ensures Linked() && FreeSet(holes) == old(FreeSet(holes)) && |holes| <= |old(holes)|
      ensures h < |slots| && last == slots[h] && Loose(holes, h, h + left - 1)
    {
      hide TwoLists, Holds, Loose, FreeSet;
      assert Successor(hp, k) == next;
      MergeStep(holes, k, left);
      if hBase[hp] + hLen[hp] == hBase[next] {
        Absorb(hp, next, k);
        last, h := hp, k;
      } else {
        last, h := next, k + 1;
      }
    }

    method Merge(first: int, ghost k: nat)
      requires Linked() && k < |slots| && first == slots[k] && Loose(holes, k, k + 2)
      modifies this, hNext, hBase, hLen
      ensures Valid() && FreeSet(holes) == old(FreeSet(holes)) && |holes| <= |old(holes)|
    {
      var next := Successor(first, k);
      if next == NIL {
        LooseDone(holes, k, k + 2);
        return;
      }
      var hp, h := TryAbsorb(first, next, k, 2);
      next := Successor(hp, h);
      if next == NIL {
        LooseDone(holes, h, h + 1);
        return;
      }
      hp, h := TryAbsorb(hp, next, h, 1);
      LooseDone(holes, h, h);
    }

    function Successor(hp: int, ghost k: nat): (next: int)
      requires Linked() && k < |slots| && hp == slots[k]
      reads this, hNext, hBase, hLen
      ensures next == After(slots, k) && hBase[hp] == holes[k].base && hLen[hp] == holes[k].len
      ensures next != NIL ==> hBase[next] == holes[k + 1].base && hLen[next] == holes[k + 1].len
    {
      hNext[hp]
    }

    /** The first unused slot becomes hole number p, after `prev`. */
    method LinkNew(base: nat, clicks: nat, prev: int, ghost p: nat)
      requires Linked() && unused != [] && p <= |slots| && prev == (if p == 0 then NIL else slots[p - 1])
      modifies this, hNext, hBase, hLen
      ensures Linked() && slots == Inserted(old(slots), p, old(freeSlots))
      ensures holes == Inserted(old(holes), p, Block(base, clicks))
    {
      var newPtr := freeSlots;
      LinkSlot(hNext[..], holeHead, slots, newPtr, unused, p);
      ApartInsert(slots, unused, p);
      HoldsInsert(hBase[..], hLen[..], slots, holes, p, newPtr, Block(base, clicks));
      hide TwoLists, Holds;
      FillSlot(newPtr, base, clicks);
      ThreadSlot(newPtr, prev);
      slots := Inserted(slots, p, newPtr);
      unused := unused[1..];
      holes := Inserted(holes, p, Block(base, clicks));
    }

    method FillSlot(x: int, base: nat, clicks: nat)
      requires 0 <= x < hBase.Length == hLen.Length && hBase != hLen
      modifies hBase, hLen
      ensures hBase[..] == old(hBase[..])[x := base] && hLen[..] == old(hLen[..])[x := clicks]
    {
      hBase[x] := base;
      hLen[x] := clicks;
    }

    /** Moves the first free slot x behind prev in the hole list, or to its front. */
    method ThreadSlot(x: int, prev: int)
      requires 0 <= x < hNext.Length && prev != x && (prev == NIL || 0 <= prev < hNext.Length)
      modifies this`holeHead, this`freeSlots, hNext
      ensures freeSlots == old(hNext[x]) && holeHead == if prev == NIL then x else old(holeHead)
      ensures hNext[..] == if prev == NIL then old(hNext[..])[x := old(holeHead)]
                           else old(hNext[..])[x := old(hNext[prev])][prev := x]
    {
      freeSlots := hNext[x];
      if prev == NIL {
        hNext[x] := holeHead;
        holeHead := x;
      } else {
        hNext[x] := hNext[prev];
        hNext[prev] := x;
      }
    }

    function Size(): nat {
      hNext.Length
    }

    /** Take n clicks off the front of hole k and delete the hole when it is used up. */
    method Bite(hp: int, n: nat, prev: int, ghost k: nat)
      requires Linked() && k < |slots| && hp == slots[k] && (k > 0 ==> prev == slots[k - 1]) && n <= holes[k].len
      modifies this, hNext, hBase, hLen
      ensures Linked()
      ensures var old0 := old(holes); var bitten := old0[k := Block(old0[k].base + n, old0[k].len - n)];
              holes == if n == old0[k].len then Removed(bitten, k) else bitten
    {
      hide TwoLists, Removed, Holds;
      assert Successor(hp, k) == hNext[hp];
      ghost var b0, l0 := hBase[..], hLen[..];
      HoldsBite(b0, l0, slots, holes, k, n);
      hBase[hp] := hBase[hp] + n;
      hLen[hp] := hLen[hp] - n;
      assert hBase[..] == b0[hp := b0[hp] + n] && hLen[..] == l0[hp := l0[hp] - n];
      holes := holes[k := Block(holes[k].base + n, holes[k].len - n)];
      assert hLen[hp] == holes[k].len;
      if hLen[hp] == 0 { DelSlot(prev, hp, k); }
    }

    /** The walk of free_mem: the first hole that does not start below `base`, and its predecessor. */
    method FindPlace(base: nat) returns (prev: int, ghost p: nat)
      requires Valid()
      ensures p <= |slots| && prev == if p == 0 then NIL else slots[p - 1]
      ensures forall i | 0 <= i < p :: holes[i].base < base
      ensures forall i | p <= i < |holes| :: base <= holes[i].base
    {
      hide TwoLists, Holds, Canonical;
      var hp := holeHead;
      prev, p := NIL, 0;
      while hp != NIL && base > hBase[hp]
        invariant p <= |slots| && hp == if p < |slots| then slots[p] else NIL
        invariant prev == if p == 0 then NIL else slots[p - 1]
        invariant forall i | 0 <= i < p :: holes[i].base < base
        decreases |slots| - p
      {
        assert Successor(hp, p) == hNext[hp];
        prev := hp;
        hp := hNext[hp];
        p := p + 1;
      }
      if p < |slots| {
        assert Successor(hp, p) == hNext[hp];
        SortedFrom(holes, p, base);
      }
    }

    /** The walk of alloc_mem: the first hole of at least `clicks`, and its predecessor. */
    method FindFit(clicks: nat) returns (hp: int, prev: int, ghost k: nat)
      requires Valid()
      ensures k <= |slots| && hp == (if k < |slots| then slots[k] else NIL)
      ensures prev == if k == 0 then NIL else slots[k - 1]
      ensures k < |slots| ==> hp != NIL && hBase[hp] == holes[k].base && LowestFit(holes, holes[k].base, clicks)
      ensures k < |slots| ==> clicks <= holes[k].len
      ensures k == |slots| <==> NoFit(holes, clicks)
    {
      hide TwoLists, Holds, Canonical;
      hp, prev, k := holeHead, NIL, 0;
      while hp != NIL && hLen[hp] < clicks
        invariant k <= |slots| && hp == if k < |slots| then slots[k] else NIL
        invariant prev == if k == 0 then NIL else slots[k - 1]
        invariant forall i | 0 <= i < k :: holes[i].len < clicks
        decreases |slots| - k
      {
        assert Successor(hp, k) == hNext[hp];
        prev := hp;
        hp := hNext[hp];
        k := k + 1;
      }
      NoFitIffAllShort(holes, clicks);
      if k < |slots| {
        assert Successor(hp, k) == hNext[hp];
        FirstFitIsLowest(holes, k, clicks);
      }
    }

    /** False is the panic "hole table full". */
    method FreeMem(base: nat, clicks: nat) returns (ok: bool)
      requires Valid() && Units(Block(base, clicks)) !! FreeSet(holes)
      modifies this, hNext, hBase, hLen
      ensures Valid()
      ensures ok <==> clicks == 0 || |old(holes)| < Size()
      ensures ok ==> Gave(old(holes), Block(base, clicks), holes)
      ensures !ok || clicks == 0 ==> holes == old(holes)
      ensures |holes| <= |old(holes)| + 1
    {
      hide Holds, Canonical, Loose, FreeSet, Units;
      if clicks == 0 { return true; }
      if freeSlots == NIL { return false; }
      var prev, p := FindPlace(base);
      InsertKeeps(holes, p, Block(base, clicks));
      InsertSet(holes, p, Block(base, clicks));
      LinkNew(base, clicks, prev, p);
      if prev == NIL {
        Merge(holeHead, 0);
      } else {
        Merge(prev, p - 1);
      }
      ok := true;
    }

    method AllocMem(request: nat, align: nat) returns (r: AllocResult, ghost start: nat)
      requires Valid()
      modifies this, hNext, hBase, hLen
      ensures Valid()
      ensures r.NoMem? <==> NoFit(old(holes), request + align)
      ensures r.NoMem? ==> holes == old(holes)
      ensures r.Mem? ==> Allocated(old(holes), request, align, start, r.base, holes)
      ensures !r.NoMem? ==> LowestFit(old(holes), start, request + align)
      // the panic: every slot is in use, the lowest fit starts off an alignment boundary, its hole goes on behind it
      ensures r.TableFull? <==> |old(holes)| == Size() && LowestFit(old(holes), start, request + align)
                                && align > 0 && start % align != 0 && start + request + align in FreeSet(old(holes))
      ensures r.TableFull? ==> r.bitten == start && Took(old(holes), Block(start, request + align), holes)
    {
      hide TwoLists, Holds, Canonical, LowestFit, Took, FreeSet;
      var clicks := request + align;
      var hp, prev, k := FindFit(clicks);
      if hp == NIL { return NoMem, 0; }
      BiteKeeps(holes, k, clicks);
      if clicks > 0 { RestOfHole(holes, k, clicks); }
      var mem := hBase[hp];
      start := mem;
      ghost var before := holes;
      Bite(hp, clicks, prev, k);
      r := Realign(before, clicks, align, mem);
    }

    /** The end of alloc_mem: give the unaligned front of the new block back. */
    method Realign(ghost before: seq<Block>, clicks: nat, align: nat, mem: nat) returns (r: AllocResult)
      requires Valid() && align <= clicks && Took(before, Block(mem, clicks), holes)
      modifies this, hNext, hBase, hLen
      ensures Valid() && !r.NoMem?
      ensures r.Mem? ==> r.base == AlignUp(mem, align) && Took(before, Block(r.base, mem + clicks - r.base), holes)
      ensures r.TableFull? <==> |old(holes)| == Size() && align > 0 && mem % align != 0
      ensures r.TableFull? ==> r.bitten == mem && holes == old(holes)
    {
      if align > 0 && mem % align > 0 {
        var e := align - mem % align;
        ghost var mid := holes;
        var ok := FreeMem(mem, e);
        if !ok { return TableFull(mem); }
        GiveBackFront(before, mid, holes, mem, mem + e, clicks);
        return Mem(mem + e);
      }
      r := Mem(mem);
    }

    /** Thread every slot onto free_slots and leave the hole list empty. */
    method Clear()
      requires Shape()
      modifies this, hNext, hBase, hLen
      ensures Valid() && holes == []
    {
      for hp := 0 to hNext.Length
        invariant forall i | 0 <= i < hp :: hNext[i] == i + 1
      {
        hNext[hp] := hp + 1;
        hBase[hp], hLen[hp] := 0, 0;
      }
      hNext[hNext.Length - 1] := NIL;
      holeHead, freeSlots := NIL, 0;
      slots, holes := [], [];
      unused := seq(hNext.Length, i => i);
      assert forall i | 0 <= i < hNext.Length :: hNext[..][unused[i]] == After(unused, i);
    }

    /** Chunk by chunk from the last to the first, as mem_init does; empty chunks are skipped. */
    method MemInit(chunks: seq<Block>) returns (ok: bool)
      requires Shape() && forall i, j | 0 <= i < j < |chunks| :: Units(chunks[i]) !! Units(chunks[j])
      modifies this, hNext, hBase, hLen
      ensures Valid() && |holes| <= |chunks|
      ensures |chunks| <= Size() ==> ok
      ensures ok ==> FreeSet(holes) == FreeSet(chunks)
    {
      hide TwoLists, Holds, Canonical, Units, FreeSet, Shape;
      Clear();
      NothingFree();
      ok := true;
      var i := |chunks|;
      assert chunks[i..] == [];
      while i > 0
        invariant 0 <= i <= |chunks|
        invariant Valid() && |holes| <= |chunks| - i
        invariant FreeSet(holes) == FreeSet(chunks[i..])
      {
        i := i - 1;
        CoveredFrom(chunks, i);
        if chunks[i].len > 0 {
          ok := FreeMem(chunks[i].base, chunks[i].len);
          if !ok { return; }
        }
      }
      assert chunks[0..] == chunks;
    }
  }
}
