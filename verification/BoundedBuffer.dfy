/** The bounded buffer of pthreads/pc-9.c: a ring with full and empty flags, and the producer and consumer around it. */
module BoundedBuffer {

  // ---- the ring ----

  /** The slot i places after `head` in a ring of n slots. */
  function Slot(n: nat, head: nat, i: nat): nat
    requires head < n && i < n
    ensures Slot(n, head, i) < n
  {
    if head + i < n then head + i else head + i - n
  }

  /** The first `len` elements of the ring from `head` on. */
  function Window(b: seq<int>, head: nat, len: nat): (w: seq<int>)
    requires head < |b| && len <= |b|
    ensures |w| == len && forall i | 0 <= i < len :: w[i] == b[Slot(|b|, head, i)]
  {
    seq(len, i requires 0 <= i < len => b[Slot(|b|, head, i)])
  }

  lemma WindowPush(b: seq<int>, head: nat, len: nat, x: int)
    requires head < |b| && len < |b|
    ensures Window(b[Slot(|b|, head, len) := x], head, len + 1) == Window(b, head, len) + [x]
  {
  }

  lemma WindowPop(b: seq<int>, head: nat, len: nat)
    requires head < |b| && 0 < len <= |b|
    ensures Window(b, head, len) == [b[head]] + Window(b, if head + 1 == |b| then 0 else head + 1, len - 1)
  {
  }

  class Fifo {
    const buf: array<int>
    var head: nat
    var tail: nat
    var full: bool
    var empty: bool

    ghost predicate Valid()
      reads this
    {
      && head < buf.Length && tail < buf.Length
      && !(full && empty) && (head == tail <==> full || empty)
    }

    ghost function Length(): nat
      reads this
      requires Valid()
    {
      if full then buf.Length else if head <= tail then tail - head else tail + buf.Length - head
    }

    ghost function Contents(): seq<int>
      reads this, buf
      requires Valid()
    {
      Window(buf[..], head, Length())
    }

    constructor Init(size: nat)
      requires size >= 1
      ensures Valid() && fresh(buf) && buf.Length == size && Contents() == [] && empty && !full
    {
      buf := new int[size](_ => 0);
      empty, full := true, false;
      head, tail := 0, 0;
    }

    lemma FlagsMeanLength()
      requires Valid()
      ensures |Contents()| == Length() <= buf.Length
      ensures full <==> |Contents()| == buf.Length
      ensures empty <==> Contents() == []
    {
    }

    method Add(x: int)
      requires Valid() && !full
      modifies this, buf
      ensures Valid() && !empty
      ensures Contents() == old(Contents()) + [x]
    {
      WindowPush(buf[..], head, Length(), x);
      buf[tail] := x;
      tail := tail + 1;
      if tail == buf.Length { tail := 0; }
      if tail == head { full := true; }
      empty := false;
    }

    method Del() returns (out: int)
      requires Valid() && !empty
      modifies this
      ensures Valid() && !full
      ensures old(Contents()) == [out] + Contents()
    {
      WindowPop(buf[..], head, Length());
      out := buf[head];
      head := head + 1;
      if head == buf.Length { head := 0; }
      if head == tail { empty := true; }
      full := false;
    }
  }
}
