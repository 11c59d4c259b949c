/** Whole runs of alloc_mem and free_mem over the hole table: how many holes there can be,
    and why the order of frees does not matter. */
module HoleRuns {
  import opened SeqEdits
  import opened FreeLists
  import opened HoleTables

  /** The holes, the blocks callers still own, and the tails that aligned requests withheld. */
  datatype Heap = Heap(holes: seq<Block>, owned: seq<Block>, withheld: seq<Block>)

  datatype Op = Alloc(request: nat, align: nat) | Free(k: nat)

  ghost predicate Granted(h: Heap, request: nat, align: nat, start: nat, m: nat, h': Heap) {
    && Allocated(h.holes, request, align, start, m, h'.holes)
    && h'.owned == h.owned + [Block(m, request)]
    && h'.withheld == h.withheld + [Block(m + request, start + align - m)]
  }

  ghost predicate Step(h: Heap, op: Op, h': Heap) {
    match op
    case Alloc(request, align) =>
      || (NoFit(h.holes, request + align) && h' == h)
      || (align == 0 && exists m: nat ::
            && Allocated(h.holes, request, 0, m, m, h'.holes)
            && h' == Heap(h'.holes, h.owned + [Block(m, request)], h.withheld))
      || (align > 0 && exists start: nat, m: nat :: Granted(h, request, align, start, m, h'))
    case Free(k) =>
      k < |h.owned| && Gave(h.holes, h.owned[k], h'.holes) && h' == Heap(h'.holes, Removed(h.owned, k), h.withheld)
  }

  ghost predicate Starts(h: Heap, chunks: seq<Block>) {
    Canonical(h.holes) && FreeSet(h.holes) == FreeSet(chunks) && h.owned == [] && h.withheld == []
  }

  ghost predicate Run(hs: seq<Heap>, ops: seq<Op>, chunks: seq<Block>) {
    && |hs| == |ops| + 1
    && Starts(hs[0], chunks)
    && forall i | 0 <= i < |ops| :: Step(hs[i], ops[i], hs[i + 1])
  }

  /** The memory of the initial chunks is parted into holes and blocks in use. */
  ghost predicate Parted(holes: seq<Block>, used: seq<Block>, chunks: seq<Block>) {
    && Canonical(holes)
    && Disjoint(used)
    && FreeSet(holes) !! FreeSet(used)
    && FreeSet(holes) + FreeSet(used) == FreeSet(chunks)
  }

  ghost predicate Inv(h: Heap, chunks: seq<Block>) {
    Parted(h.holes, h.owned + h.withheld, chunks)
  }

  lemma TakePart(holes: seq<Block>, used: seq<Block>, chunks: seq<Block>, b: Block, k: nat, holes': seq<Block>)
    requires Parted(holes, used, chunks) && k <= |used| && Took(holes, b, holes')
    ensures Parted(holes', Inserted(used, k, b), chunks)
  {
    AddUsed(used, k, b);
  }

  /** Block k in use is cut in two at its n-th unit; the rear part goes to the end of the list. */
  lemma SplitPart(holes: seq<Block>, used: seq<Block>, chunks: seq<Block>, k: nat, n: nat)
    requires Parted(holes, used, chunks) && k < |used| && n <= used[k].len
    ensures var front, rear := Block(used[k].base, n), Block(used[k].base + n, used[k].len - n);
            Parted(holes, used[k := front] + [rear], chunks)
  {
    var front, rear := Block(used[k].base, n), Block(used[k].base + n, used[k].len - n);
    assert Units(used[k]) == Units(front) + Units(rear);
    assert Units(front) !! Units(rear);
    var r := Removed(used, k);
    DropUsed(used, k);
    AddUsed(r, k, front);
    assert Inserted(r, k, front) == used[k := front];
    AddUsed(used[k := front], |used|, rear);
    assert Inserted(used[k := front], |used|, rear) == used[k := front] + [rear];
  }

  lemma InvStep(h: Heap, op: Op, h': Heap, chunks: seq<Block>)
    requires Inv(h, chunks) && Step(h, op, h')
    ensures Inv(h', chunks)
  {
    hide Parted, Took, Gave;
    var used := h.owned + h.withheld;
    match op
    case Free(k) =>
      GivePart(h.holes, used, chunks, k, h'.holes);
      assert Removed(h.owned, k) + h.withheld == Removed(used, k);
    case Alloc(request, align) =>
      if align == 0 && !(NoFit(h.holes, request) && h' == h) {
        var m: nat :| Allocated(h.holes, request, 0, m, m, h'.holes)
                      && h' == Heap(h'.holes, h.owned + [Block(m, request)], h.withheld);
        TakePart(h.holes, used, chunks, Block(m, request), |h.owned|, h'.holes);
        assert h.owned + [Block(m, request)] + h.withheld == Inserted(used, |h.owned|, Block(m, request));
      } else if align > 0 && !(NoFit(h.holes, request + align) && h' == h) {
        var start: nat, m: nat :| Granted(h, request, align, start, m, h');
        AlignUpMultiple(start, align);
        var b := Block(m, start + request + align - m);
        TakePart(h.holes, used, chunks, b, |h.owned|, h'.holes);
        var u := Inserted(used, |h.owned|, b);
        SplitPart(h'.holes, u, chunks, |h.owned|, request);
        assert h'.owned + h'.withheld == u[|h.owned| := Block(m, request)] + [Block(m + request, start + align - m)];
      }
  }

  lemma GivePart(holes: seq<Block>, used: seq<Block>, chunks: seq<Block>, k: nat, holes': seq<Block>)
    requires Parted(holes, used, chunks) && k < |used| && Gave(holes, used[k], holes')
    ensures Parted(holes', Removed(used, k), chunks)
  {
    DropUsed(used, k);
  }

  lemma {:induction false} InvRun(hs: seq<Heap>, ops: seq<Op>, chunks: seq<Block>, n: nat)
    requires Run(hs, ops, chunks) && n < |hs|
    ensures Inv(hs[n], chunks)
  {
    if n > 0 {
      InvRun(hs, ops, chunks, n - 1);
      InvStep(hs[n - 1], ops[n - 1], hs[n], chunks);
    }
  }

  // ---- table capacity ----

  ghost function Ends(bs: seq<Block>): set<nat> {
    set i | 0 <= i < |bs| :: End(bs[i])
  }

  ghost function Bases(bs: seq<Block>): set<nat> {
    set i | 0 <= i < |bs| :: bs[i].base
  }

  lemma EndsSplit(bs: seq<Block>)
    requires bs != []
    ensures Ends(bs) == Ends(bs[..|bs| - 1]) + {End(bs[|bs| - 1])}
  {
    var t := bs[..|bs| - 1];
    assert forall i | 0 <= i < |t| :: End(bs[i]) == End(t[i]);
  }

  lemma {:induction false} EndsAtMost(bs: seq<Block>)
    ensures |Ends(bs)| <= |bs|
  {
    if bs != [] {
      EndsSplit(bs);
      EndsAtMost(bs[..|bs| - 1]);
    }
  }

  /** The holes of a canonical list have distinct ends. */
  lemma {:induction false} EndsCount(bs: seq<Block>)
    requires Canonical(bs)
    ensures |Ends(bs)| == |bs|
  {
    if bs != [] {
      var t, z := bs[..|bs| - 1], bs[|bs| - 1];
      EndsSplit(bs);
      EndsCount(t);
      assert forall i | 0 <= i < |t| :: End(bs[i]) == End(t[i]) && End(bs[i]) < End(z);
      assert End(z) !in Ends(t);
    }
  }

  lemma {:induction false} BasesCount(bs: seq<Block>)
    ensures |Bases(bs)| <= |bs|
  {
    if bs != [] {
      var t := bs[..|bs| - 1];
      BasesCount(t);
      assert Bases(bs) == Bases(t) + {bs[|bs| - 1].base} by {
        assert forall i | 0 <= i < |t| :: bs[i].base == t[i].base;
      }
    }
  }

  /** A hole ends where a block in use begins or where a chunk of memory ends. */
  lemma HoleEnd(h: Heap, chunks: seq<Block>, k: nat)
    requires Inv(h, chunks) && k < |h.holes|
    ensures End(h.holes[k]) in Bases(h.owned + h.withheld) + Ends(chunks)
  {
    var used := h.owned + h.withheld;
    var e := End(h.holes[k]);
    EndNotFree(h.holes, k);
    assert In(h.holes[k], e - 1) && e - 1 in FreeSet(h.holes);
    if e in FreeSet(chunks) {
      assert e in FreeSet(used) && e - 1 !in FreeSet(used);
      var j :| 0 <= j < |used| && In(used[j], e);
      assert !In(used[j], e - 1);
      assert used[j].base == e;
    } else {
      assert e - 1 in FreeSet(chunks);
      var j :| 0 <= j < |chunks| && In(chunks[j], e - 1);
      assert !In(chunks[j], e);
      assert End(chunks[j]) == e;
    }
  }

  lemma HolesCount(h: Heap, chunks: seq<Block>)
    requires Inv(h, chunks)
    ensures |h.holes| <= |h.owned| + |h.withheld| + |chunks|
  {
    var used := h.owned + h.withheld;
    forall e | e in Ends(h.holes) ensures e in Bases(used) + Ends(chunks) {
      var i :| 0 <= i < |h.holes| && e == End(h.holes[i]);
      HoleEnd(h, chunks, i);
    }
    EndsCount(h.holes);
    EndsAtMost(chunks);
    BasesCount(used);
    SubsetCount(Ends(h.holes), Bases(used) + Ends(chunks));
  }

  /** In every reachable heap there are at most as many holes as blocks in use plus initial chunks. */
  lemma HolesBounded(hs: seq<Heap>, ops: seq<Op>, chunks: seq<Block>, n: nat)
    requires Run(hs, ops, chunks) && n < |hs|
    ensures |hs[n].holes| <= |hs[n].owned| + |hs[n].withheld| + |chunks|
  {
    InvRun(hs, ops, chunks, n);
    HolesCount(hs[n], chunks);
  }

  lemma SubsetCount(a: set<nat>, b: set<nat>)
    requires a <= b
    ensures |a| <= |b|
  {
    assert |b - a| == |b| - |a|;
  }

  /** A call of free_mem on an owned block is a step, and does not panic while the blocks in use
      and the initial chunks together number less than the table. */
  method FreeStep(table: HoleTable, ghost h: Heap, ghost chunks: seq<Block>, b: Block, ghost k: nat)
    returns (ok: bool, ghost h': Heap)
    requires table.Valid() && table.holes == h.holes && Inv(h, chunks) && k < |h.owned| && b == h.owned[k]
    modifies table, table.hNext, table.hBase, table.hLen
    ensures table.Valid()
    ensures |h.owned| + |h.withheld| + |chunks| < table.Size() ==> ok
    ensures ok ==> Step(h, Free(k), h') && Inv(h', chunks) && table.holes == h'.holes
  {
    HolesCount(h, chunks);
    DropUsed(h.owned + h.withheld, k);
    ok := table.FreeMem(b.base, b.len);
    h' := h;
    if ok {
      h' := Heap(table.holes, Removed(h.owned, k), h.withheld);
      InvStep(h, Free(k), h', chunks);
    }
  }

  /** A call of alloc_mem is a step, and giving back its unaligned front does not panic under the same condition. */
  method AllocStep(table: HoleTable, ghost h: Heap, ghost chunks: seq<Block>, request: nat, align: nat)
    returns (r: AllocResult, ghost h': Heap)
    requires table.Valid() && table.holes == h.holes && Inv(h, chunks)
    modifies table, table.hNext, table.hBase, table.hLen
    ensures table.Valid()
    ensures |h.owned| + |h.withheld| + |chunks| < table.Size() ==> !r.TableFull?
    ensures !r.TableFull? ==> Step(h, Alloc(request, align), h') && Inv(h', chunks) && table.holes == h'.holes
    ensures r.Mem? ==> |h'.owned| == |h.owned| + 1 && h'.owned[|h.owned|] == Block(r.base, request)
  {
    hide Inv, HoleTable.Linked, HoleTable.Valid, Allocated, Took, LowestFit, Canonical, FreeSet, NoFit;
    ghost var start;
    r, start := table.AllocMem(request, align);
    match r
    case NoMem => h' := h;
    case TableFull(_) => h' := h;
      HolesCount(h, chunks);
    case Mem(m) =>
      h' := GrantedHeap(h, request, align, start, m, table.holes);
      InvStep(h, Alloc(request, align), h', chunks);
  }

  ghost function GrantedHeap(h: Heap, request: nat, align: nat, start: nat, m: nat, after: seq<Block>): (h': Heap)
    requires Allocated(h.holes, request, align, start, m, after)
    ensures Step(h, Alloc(request, align), h') && h'.holes == after && h'.owned == h.owned + [Block(m, request)]
  {
    if align == 0 then Heap(after, h.owned + [Block(m, request)], h.withheld)
    else
      AlignUpMultiple(start, align);
      var h' := Heap(after, h.owned + [Block(m, request)], h.withheld + [Block(m + request, start + align - m)]);
      assert Granted(h, request, align, start, m, h');
      h'
  }

  // ---- what alloc_mem means for the set of free clicks ----

  /** All of [c, c + n) is free. */
  ghost predicate FreeRun(bs: seq<Block>, c: nat, n: nat) {
    Units(Block(c, n)) <= FreeSet(bs)
  }

  ghost predicate LowestFreeRun(bs: seq<Block>, c: nat, n: nat) {
    FreeRun(bs, c, n) && forall d: nat | FreeRun(bs, d, n) :: c <= d
  }

  /** NO_MEM exactly when there is no run of n consecutive free clicks. */
  lemma NoMemExactly(bs: seq<Block>, n: nat)
    requires Canonical(bs) && n > 0
    ensures NoFit(bs, n) <==> forall c: nat :: !FreeRun(bs, c, n)
  {
    forall c: nat ensures Fits(bs, c, n) <==> FreeRun(bs, c, n) { FitsIffFree(bs, c, n); }
    if c: nat :| Fits(bs, c, n) { assert FreeRun(bs, c, n); }
  }

  /** A successful request gets the lowest-addressed run of free clicks that is long enough, exactly
      that run leaves the free set but for the part in front of the first aligned click, and between
      1 and `align` of the clicks taken lie behind the request. */
  lemma AllocatedMeaning(before: seq<Block>, request: nat, align: nat, start: nat, m: nat, after: seq<Block>)
    requires Canonical(before) && Allocated(before, request, align, start, m, after) && request + align > 0
    ensures LowestFreeRun(before, start, request + align)
    ensures FreeSet(after) == FreeSet(before) - Units(Block(m, start + request + align - m))
    ensures align == 0 ==> m == start
    ensures align > 0 ==> m % align == 0 && start <= m < start + align && 1 <= start + align - m <= align
  {
    if align > 0 { AlignUpMultiple(start, align); }
    var n := request + align;
    forall d: nat ensures Fits(before, d, n) <==> FreeRun(before, d, n) { FitsIffFree(before, d, n); }
  }

  // ---- canonical form ----

  /** Freeing a block just allocated restores the very list of holes there was before, exactly when no
      alignment was asked for: the clicks that alignment withholds behind the block are never given back. */
  lemma AllocThenFree(before: seq<Block>, request: nat, align: nat, start: nat, m: nat, mid: seq<Block>,
                      after: seq<Block>)
    requires Canonical(before) && Allocated(before, request, align, start, m, mid)
    requires Gave(mid, Block(m, request), after)
    ensures after == before <==> align == 0
  {
    if align == 0 {
      CanonicalUnique(before, after);
    } else {
      AlignUpMultiple(start, align);
      var lost := m + request;
      assert In(Block(m, start + request + align - m), lost) && !In(Block(m, request), lost);
      assert lost in FreeSet(before) && lost !in FreeSet(after);
    }
  }

  /** One click asked for at an alignment of 16, from a hole of 32: the 16 clicks behind it are lost. */
  lemma AlignedLoss()
    ensures var before, mid, after := [Block(0, 32)], [Block(17, 15)], [Block(0, 1), Block(17, 15)];
      Allocated(before, 1, 16, 0, 0, mid) && Gave(mid, Block(0, 1), after) && after != before
  {
    var before, mid, after := [Block(0, 32)], [Block(17, 15)], [Block(0, 1), Block(17, 15)];
    forall c: nat
      ensures c in FreeSet(before) <==> c < 32
      ensures c in FreeSet(mid) <==> 17 <= c < 32
      ensures c in FreeSet(after) <==> c < 1 || 17 <= c < 32
    {
      assert Covered(before, c) <==> In(before[0], c);
      assert Covered(mid, c) <==> In(mid[0], c);
      assert Covered(after, c) <==> In(after[0], c) || In(after[1], c);
    }
    hide FreeSet, Covered;
  }

  ghost predicate FreedInOrder(before: seq<Block>, blocks: seq<Block>, after: seq<Block>)
    decreases |blocks|
  {
    if blocks == [] then after == before
    else exists mid :: Gave(before, blocks[0], mid) && FreedInOrder(mid, blocks[1..], after)
  }

  lemma {:induction false} FreedSet(before: seq<Block>, blocks: seq<Block>, after: seq<Block>)
    requires Canonical(before) && FreedInOrder(before, blocks, after)
    ensures Canonical(after) && FreeSet(after) == FreeSet(before) + FreeSet(blocks)
    decreases |blocks|
  {
    if blocks != [] {
      var mid :| Gave(before, blocks[0], mid) && FreedInOrder(mid, blocks[1..], after);
      FreedSet(mid, blocks[1..], after);
      forall c: nat ensures c in FreeSet(blocks) <==> c in FreeSet(blocks[1..]) || In(blocks[0], c) {
        CoveredSplit(blocks, c);
      }
    }
  }

  /** Freeing the same blocks in two different orders ends in the same list of holes. */
  lemma OrderOfFreesIrrelevant(before: seq<Block>, p: seq<Block>, q: seq<Block>, afterP: seq<Block>, afterQ: seq<Block>)
    requires Canonical(before) && multiset(p) == multiset(q)
    requires FreedInOrder(before, p, afterP) && FreedInOrder(before, q, afterQ)
    ensures afterP == afterQ
  {
    FreedSet(before, p, afterP);
    FreedSet(before, q, afterQ);
    CoveredByMembers(p, q);
    CoveredByMembers(q, p);
    CanonicalUnique(afterP, afterQ);
  }

  lemma CoveredByMembers(p: seq<Block>, q: seq<Block>)
    requires multiset(p) == multiset(q)
    ensures FreeSet(p) <= FreeSet(q)
  {
    forall c | c in FreeSet(p) ensures c in FreeSet(q) {
      var i :| 0 <= i < |p| && In(p[i], c);
      assert p[i] in multiset(q);
      var j :| 0 <= j < |q| && q[j] == p[i];
      assert In(q[j], c);
    }
  }
}
