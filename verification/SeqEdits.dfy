/** Insertion and removal in sequences, with the index maps the proofs need. */
module SeqEdits {

  function Inserted<T>(s: seq<T>, k: nat, x: T): (t: seq<T>)
    requires k <= |s|
    ensures |t| == |s| + 1
    ensures forall i | 0 <= i < |t| :: t[i] == if i < k then s[i] else if i == k then x else s[i - 1]
  {
    s[..k] + [x] + s[k..]
  }

  function Removed<T>(s: seq<T>, k: nat): (t: seq<T>)
    requires k < |s|
    ensures |t| == |s| - 1
    ensures forall i | 0 <= i < |t| :: t[i] == if i < k then s[i] else s[i + 1]
  {
    s[..k] + s[k + 1..]
  }
}
