/** The distributed product of PVM/pvm_mm.master.c and MPI/matrix_mult.c: the master's partition into blocks of rows,
    the worker's loops, and the gather of results in the order in which they happen to arrive. */
module MatrixProduct {

  // ---- the partition ----

  datatype Block = Block(offset: nat, rows: nat)

  /** The first row of block i, when `total` rows are dealt to `workers` tasks. */
  function BlockStart(i: nat, total: nat, workers: nat): nat
    requires workers > 0
  {
    i * (total / workers) + if i < total % workers then i else total % workers
  }

  function BlockOf(i: nat, total: nat, workers: nat): Block
    requires workers > 0
  {
    Block(BlockStart(i, total, workers), total / workers + if i < total % workers then 1 else 0)
  }

  method Partition(total: nat, workers: nat) returns (blocks: seq<Block>)
    requires workers > 0
    ensures |blocks| == workers && forall i | 0 <= i < workers :: blocks[i] == BlockOf(i, total, workers)
  {
    var averow, extra, offset := total / workers, total % workers, 0;
    blocks := [];
    for i := 0 to workers
      invariant offset == BlockStart(i, total, workers) && |blocks| == i
      invariant forall j | 0 <= j < i :: blocks[j] == BlockOf(j, total, workers)
    {
      var rows := if i < extra then averow + 1 else averow;
      blocks := blocks + [Block(offset, rows)];
      BlocksMeet(i, total, workers);
      offset := offset + rows;
    }
  }

  /** The MPI master counts its workers from one. */
  method PartitionFromOne(total: nat, workers: nat) returns (blocks: seq<Block>)
    requires workers > 0
    ensures |blocks| == workers && forall i | 0 <= i < workers :: blocks[i] == BlockOf(i, total, workers)
  {
    var averow, extra, offset := total / workers, total % workers, 0;
    blocks := [];
    for dest := 1 to workers + 1
      invariant offset == BlockStart(dest - 1, total, workers) && |blocks| == dest - 1
      invariant forall j | 0 <= j < dest - 1 :: blocks[j] == BlockOf(j, total, workers)
    {
      var rows := if dest <= extra then averow + 1 else averow;
      blocks := blocks + [Block(offset, rows)];
      BlocksMeet(dest - 1, total, workers);
      offset := offset + rows;
    }
  }

  /** Each block begins where the one before it ends. */
  lemma BlocksMeet(i: nat, total: nat, workers: nat)
    requires workers > 0
    ensures BlockStart(i + 1, total, workers) == BlockStart(i, total, workers) + BlockOf(i, total, workers).rows
  {
    assert (i + 1) * (total / workers) == i * (total / workers) + total / workers;
  }

  /** The blocks begin at row 0 and end at the last row. */
  lemma BlocksSpan(total: nat, workers: nat)
    requires workers > 0
    ensures BlockStart(0, total, workers) == 0 && BlockStart(workers, total, workers) == total
  {
    assert workers * (total / workers) + total % workers == total;
  }

  /** No two blocks differ in size by more than one row. */
  lemma BlocksEven(i: nat, j: nat, total: nat, workers: nat)
    requires workers > 0 && i <= j
    ensures BlockOf(j, total, workers).rows <= BlockOf(i, total, workers).rows <= BlockOf(j, total, workers).rows + 1
  {
  }

  predicate InBlock(row: nat, i: nat, total: nat, workers: nat)
    requires workers > 0
  {
    BlockStart(i, total, workers) <= row < BlockStart(i + 1, total, workers)
  }

  lemma {:induction false} BlocksOrdered(i: nat, j: nat, total: nat, workers: nat)
    requires workers > 0 && i <= j
    ensures BlockStart(i, total, workers) <= BlockStart(j, total, workers)
  {
    if i < j {
      BlocksOrdered(i, j - 1, total, workers);
      BlocksMeet(j - 1, total, workers);
    }
  }

  /** Every row below the start of block n is in exactly one of the blocks before it. */
  lemma {:induction false} OneOwner(row: nat, n: nat, total: nat, workers: nat)
    requires workers > 0 && row < BlockStart(n, total, workers)
    ensures exists i: nat :: i < n && InBlock(row, i, total, workers)
                             && forall j: nat | InBlock(row, j, total, workers) :: j == i
  {
    assert BlockStart(0, total, workers) == 0;
    if row < BlockStart(n - 1, total, workers) {
      OneOwner(row, n - 1, total, workers);
    } else {
      assert InBlock(row, n - 1, total, workers);
      forall j: nat | InBlock(row, j, total, workers) ensures j == n - 1 {
        if j < n - 1 { BlocksOrdered(j + 1, n - 1, total, workers); }
        if n - 1 < j { BlocksOrdered(n, j, total, workers); }
      }
    }
  }

  /** The blocks of all the workers cover the rows of the matrix exactly. */
  lemma BlocksPartition(row: nat, total: nat, workers: nat)
    requires workers > 0
    ensures row < total ==> exists i: nat :: i < workers && InBlock(row, i, total, workers)
                                             && forall j: nat | InBlock(row, j, total, workers) :: j == i
    ensures row >= total ==> forall i: nat | i < workers :: !InBlock(row, i, total, workers)
  {
    BlocksSpan(total, workers);
    if row < total {
      OneOwner(row, workers, total, workers);
    } else {
      forall i: nat | i < workers ensures !InBlock(row, i, total, workers) {
        BlocksOrdered(i + 1, workers, total, workers);
      }
    }
  }

  // ---- the product ----

  type Table = seq<seq<real>>

  predicate Shaped(t: Table, rows: nat, columns: nat) {
    |t| == rows && forall i | 0 <= i < rows :: |t[i]| == columns
  }

  /** The first n terms of entry (i, k) of the product. */
  function Entry(a: Table, b: Table, i: nat, k: nat, n: nat): real
    requires i < |a| && n <= |a[i]| && n <= |b| && forall j | 0 <= j < n :: k < |b[j]|
  {
    if n == 0 then 0.0 else Entry(a, b, i, k, n - 1) + a[i][n - 1] * b[n - 1][k]
  }

  /** Row i of a times b. */
  function RowProduct(a: Table, b: Table, i: nat, inner: nat, columns: nat): (r: seq<real>)
    requires i < |a| && |a[i]| == inner && Shaped(b, inner, columns)
    ensures |r| == columns
  {
    seq(columns, k requires 0 <= k < columns => Entry(a, b, i, k, inner))
  }

  function Product(a: Table, b: Table, inner: nat, columns: nat): Table
    requires Shaped(a, |a|, inner) && Shaped(b, inner, columns)
  {
    seq(|a|, i requires 0 <= i < |a| => RowProduct(a, b, i, inner, columns))
  }

  /** An entry depends on one row of a only. */
  lemma {:induction false} EntryOfRow(a: Table, a2: Table, b: Table, i: nat, i2: nat, k: nat, n: nat)
    requires i < |a| && i2 < |a2| && a[i] == a2[i2] && n <= |a[i]| && n <= |b| && forall j | 0 <= j < n :: k < |b[j]|
    ensures Entry(a, b, i, k, n) == Entry(a2, b, i2, k, n)
  {
    if n > 0 { EntryOfRow(a, a2, b, i, i2, k, n - 1); }
  }

  // ---- the two laws that determine a product ----

  lemma {:induction false} EntryUnit(a: Table, b: Table, i: nat, j: nat, k: nat, n: nat)
    requires i < |a| && n <= |a[i]| && n <= |b| && forall l | 0 <= l < n :: k < |b[l]|
    requires forall l | 0 <= l < n :: a[i][l] == if l == j then 1.0 else 0.0
    ensures Entry(a, b, i, k, n) == if j < n then b[j][k] else 0.0
  {
    if n > 0 { EntryUnit(a, b, i, j, k, n - 1); }
  }

  /** A row that is one in column j and zero elsewhere picks row j of b. */
  lemma UnitRow(a: Table, b: Table, i: nat, j: nat, inner: nat, columns: nat)
    requires Shaped(a, |a|, inner) && Shaped(b, inner, columns) && i < |a| && j < inner
    requires forall l | 0 <= l < inner :: a[i][l] == if l == j then 1.0 else 0.0
    ensures Product(a, b, inner, columns)[i] == b[j]
  {
    forall k: nat | k < columns ensures Product(a, b, inner, columns)[i][k] == b[j][k] {
      EntryUnit(a, b, i, j, k, inner);
    }
  }

  lemma Distributes(x: real, c: real, y: real, z: real)
    ensures (x + c * y) * z == x * z + c * (y * z)
  {
    assert (c * y) * z == c * (y * z);
  }

  lemma {:induction false} EntryLinear(a: Table, i: nat, p: Table, pi: nat, q: Table, qi: nat, c: real, b: Table,
                                       k: nat, n: nat)
    requires i < |a| && pi < |p| && qi < |q| && n <= |a[i]| && n <= |p[pi]| && n <= |q[qi]|
    requires n <= |b| && forall l | 0 <= l < n :: k < |b[l]|
    requires forall l | 0 <= l < n :: a[i][l] == p[pi][l] + c * q[qi][l]
    ensures Entry(a, b, i, k, n) == Entry(p, b, pi, k, n) + c * Entry(q, b, qi, k, n)
  {
    if n > 0 {
      EntryLinear(a, i, p, pi, q, qi, c, b, k, n - 1);
      var x, y, z := p[pi][n - 1], q[qi][n - 1], b[n - 1][k];
      Distributes(x, c, y, z);
      Distributes(0.0, c, Entry(q, b, qi, k, n - 1) + y * z, 1.0);
      assert c * (Entry(q, b, qi, k, n - 1) + y * z) == c * Entry(q, b, qi, k, n - 1) + c * (y * z);
    }
  }

  /** A combination of two rows gives the combination of their products. */
  lemma RowsCombine(a: Table, i: nat, p: Table, pi: nat, q: Table, qi: nat, c: real, b: Table, inner: nat, columns: nat)
    requires Shaped(a, |a|, inner) && Shaped(p, |p|, inner) && Shaped(q, |q|, inner) && Shaped(b, inner, columns)
    requires i < |a| && pi < |p| && qi < |q| && forall l | 0 <= l < inner :: a[i][l] == p[pi][l] + c * q[qi][l]
    ensures forall k | 0 <= k < columns ::
              Product(a, b, inner, columns)[i][k]
              == Product(p, b, inner, columns)[pi][k] + c * Product(q, b, inner, columns)[qi][k]
  {
    forall k: nat | k < columns
      ensures Product(a, b, inner, columns)[i][k]
           == Product(p, b, inner, columns)[pi][k] + c * Product(q, b, inner, columns)[qi][k]
    {
      EntryLinear(a, i, p, pi, q, qi, c, b, k, inner);
    }
  }

  lemma ProductOfBlock(a: Table, b: Table, offset: nat, rows: nat, inner: nat, columns: nat)
    requires Shaped(a, |a|, inner) && Shaped(b, inner, columns) && offset + rows <= |a|
    ensures Product(a[offset..offset + rows], b, inner, columns) == Product(a, b, inner, columns)[offset..offset + rows]
  {
    var s := a[offset..offset + rows];
    forall i, k | 0 <= i < rows && 0 <= k < columns
      ensures Entry(s, b, i, k, inner) == Entry(a, b, offset + i, k, inner)
    {
      EntryOfRow(s, a, b, i, offset + i, k, inner);
    }
    forall i | 0 <= i < rows ensures Product(s, b, inner, columns)[i] == Product(a, b, inner, columns)[offset + i] {
      assert RowProduct(s, b, i, inner, columns) == RowProduct(a, b, offset + i, inner, columns);
    }
  }

  /** The loops of a worker over the rows it was sent. */
  method Worker(a: Table, b: Table, inner: nat, columns: nat) returns (c: array2<real>)
    requires Shaped(a, |a|, inner) && Shaped(b, inner, columns)
    ensures fresh(c) && c.Length0 == |a| && c.Length1 == columns
    ensures forall i, k | 0 <= i < |a| && 0 <= k < columns :: c[i, k] == Product(a, b, inner, columns)[i][k]
  {
    var rows := |a|;
    c := new real[rows, columns];
    for k := 0 to columns
      invariant forall p, q | 0 <= p < rows && 0 <= q < k :: c[p, q] == Entry(a, b, p, q, inner)
    {
      for i := 0 to rows
        invariant forall p, q | 0 <= p < rows && 0 <= q < k :: c[p, q] == Entry(a, b, p, q, inner)
        invariant forall p | 0 <= p < i :: c[p, k] == Entry(a, b, p, k, inner)
      {
        c[i, k] := 0.0;
        for j := 0 to inner
          invariant forall p, q | 0 <= p < rows && 0 <= q < k :: c[p, q] == Entry(a, b, p, q, inner)
          invariant forall p | 0 <= p < i :: c[p, k] == Entry(a, b, p, k, inner)
          invariant c[i, k] == Entry(a, b, i, k, j)
        {
          c[i, k] := c[i, k] + a[i][j] * b[j][k];
        }
      }
    }
  }

  // ---- scatter and gather ----

  datatype Reply = Reply(offset: nat, c: Table)

  /** What the task with this block sends back. */
  function Answer(a: Table, b: Table, block: Block, inner: nat, columns: nat): Reply
    requires Shaped(a, |a|, inner) && Shaped(b, inner, columns) && block.offset + block.rows <= |a|
  {
    Reply(block.offset, Product(a, b, inner, columns)[block.offset..block.offset + block.rows])
  }

  method WorkerTask(a: Table, b: Table, block: Block, inner: nat, columns: nat) returns (reply: Reply)
    requires Shaped(a, |a|, inner) && Shaped(b, inner, columns) && block.offset + block.rows <= |a|
    ensures reply == Answer(a, b, block, inner, columns)
  {
    var sent := a[block.offset..block.offset + block.rows];
    var c := Worker(sent, b, inner, columns);
    var packed := seq(block.rows, i requires 0 <= i < block.rows == c.Length0 reads c =>
                    seq(c.Length1, k requires 0 <= k < c.Length1 && 0 <= i < c.Length0 reads c => c[i, k]));
    ProductOfBlock(a, b, block.offset, block.rows, inner, columns);
    forall i | 0 <= i < block.rows ensures packed[i] == Product(sent, b, inner, columns)[i] {
      assert forall k | 0 <= k < columns :: packed[i][k] == c[i, k] == Product(sent, b, inner, columns)[i][k];
    }
    assert packed == Product(sent, b, inner, columns);
    reply := Reply(block.offset, packed);
  }

  predicate Covers(r: Reply, row: int) {
    r.offset <= row < r.offset + |r.c|
  }

  ghost predicate Agrees(r: Reply, t: Table) {
    r.offset + |r.c| <= |t| && r.c == t[r.offset..r.offset + |r.c|]
  }

  ghost predicate RowDone(c: array2<real>, t: Table, row: int)
    requires Shaped(t, c.Length0, c.Length1)
    reads c
  {
    0 <= row < c.Length0 && forall k | 0 <= k < c.Length1 :: c[row, k] == t[row][k]
  }

  /** Unpacks the replies in the given order. If all agree with one table, every row they cover ends as in it. */
  method Gather(c: array2<real>, replies: seq<Reply>, ghost t: Table)
    requires Shaped(t, c.Length0, c.Length1)
    requires forall m | 0 <= m < |replies| :: Agrees(replies[m], t)
    modifies c
    ensures forall m, row | 0 <= m < |replies| && Covers(replies[m], row) :: RowDone(c, t, row)
  {
    for m := 0 to |replies|
      invariant forall l, row | 0 <= l < m && Covers(replies[l], row) :: RowDone(c, t, row)
    {
      label before:
      Unpack(c, replies[m], t);
      assert forall row: int :: old@before(RowDone(c, t, row)) ==> RowDone(c, t, row);
    }
  }

  method Unpack(c: array2<real>, reply: Reply, ghost t: Table)
    requires Shaped(t, c.Length0, c.Length1) && Agrees(reply, t)
    modifies c
    ensures forall row, k | 0 <= row < c.Length0 && 0 <= k < c.Length1 ::
              c[row, k] == if Covers(reply, row) then t[row][k] else old(c[row, k])
  {
    for i := 0 to |reply.c|
      invariant forall row, k | 0 <= row < c.Length0 && 0 <= k < c.Length1 ::
                  c[row, k] == if reply.offset <= row < reply.offset + i then t[row][k] else old(c[row, k])
    {
      for j := 0 to c.Length1
        invariant forall row, k | 0 <= row < c.Length0 && 0 <= k < c.Length1 ::
                    c[row, k] == if reply.offset <= row < reply.offset + i || (row == reply.offset + i && k < j)
                                 then t[row][k] else old(c[row, k])
      {
        c[reply.offset + i, j] := reply.c[i][j];
      }
    }
  }

  /** The answers of all workers, in the order of the workers. */
  method Answers(a: Table, b: Table, inner: nat, columns: nat, workers: nat) returns (answers: seq<Reply>)
    requires Shaped(a, |a|, inner) && Shaped(b, inner, columns) && workers > 0
    ensures |answers| == workers
    ensures forall i | 0 <= i < workers :: Agrees(answers[i], Product(a, b, inner, columns))
    ensures forall i, row: nat | 0 <= i < workers && InBlock(row, i, |a|, workers) :: Covers(answers[i], row)
  {
    var blocks := Partition(|a|, workers);
    answers := [];
    for i := 0 to workers
      invariant |answers| == i
      invariant forall j | 0 <= j < i :: Agrees(answers[j], Product(a, b, inner, columns))
      invariant forall j, row: nat | 0 <= j < i && InBlock(row, j, |a|, workers) :: Covers(answers[j], row)
    {
      BlockInside(i, |a|, workers);
      BlocksMeet(i, |a|, workers);
      hide Product, BlockStart;
      var answer := WorkerTask(a, b, blocks[i], inner, columns);
      answers := answers + [answer];
    }
  }

  /** The master, with its replies arriving in any order: the result is the product, as one worker alone computes it. */
  method Master(a: Table, b: Table, inner: nat, columns: nat, workers: nat, arrival: seq<nat>) returns (c: array2<real>)
    requires Shaped(a, |a|, inner) && Shaped(b, inner, columns) && workers > 0
    requires multiset(arrival) == multiset(seq(workers, i => i))
    ensures c.Length0 == |a| && c.Length1 == columns
    ensures forall row | 0 <= row < |a| :: RowDone(c, Product(a, b, inner, columns), row)
  {
    hide Product, InBlock, Agrees, Covers, RowDone;
    var answers := Answers(a, b, inner, columns, workers);
    Arrivals(arrival, workers);
    var replies := seq(|arrival|, m requires 0 <= m < |arrival| => answers[arrival[m]]);
    c := new real[|a|, columns];
    ghost var t := Product(a, b, inner, columns);
    ProductShape(a, b, inner, columns);
    Gather(c, replies, t);
    forall row: nat | row < |a| ensures RowDone(c, t, row) {
      BlocksPartition(row, |a|, workers);
      var i: nat :| i < workers && InBlock(row, i, |a|, workers);
      assert i in arrival;
      var m :| 0 <= m < |arrival| && arrival[m] == i;
      assert Covers(replies[m], row);
    }
  }

  lemma ProductShape(a: Table, b: Table, inner: nat, columns: nat)
    requires Shaped(a, |a|, inner) && Shaped(b, inner, columns)
    ensures Shaped(Product(a, b, inner, columns), |a|, columns)
  {
  }

  lemma BlockInside(i: nat, total: nat, workers: nat)
    requires i < workers
    ensures BlockOf(i, total, workers).offset + BlockOf(i, total, workers).rows <= total
  {
    BlocksSpan(total, workers);
    BlocksMeet(i, total, workers);
    BlocksOrdered(i + 1, workers, total, workers);
  }

  /** In a permutation of the workers, every worker occurs and nobody else does. */
  lemma Arrivals(arrival: seq<nat>, workers: nat)
    requires multiset(arrival) == multiset(seq(workers, i => i))
    ensures forall m | 0 <= m < |arrival| :: arrival[m] < workers
    ensures forall i: nat | i < workers :: i in arrival
  {
    var all := seq(workers, i => i);
    forall m | 0 <= m < |arrival| ensures arrival[m] < workers {
      assert arrival[m] in multiset(all);
    }
    forall i: nat | i < workers ensures i in arrival {
      assert all[i] == i;
      assert i in multiset(arrival);
    }
  }
}
