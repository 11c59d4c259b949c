/** Nodes of linked lists. */
module LinkedNodes {

  /** A node with its link, what the program stores behind it, and the number it goes by in proofs. */
  class Node<T> {
    var next: Node?<T>
    var data: T
    ghost const number: nat

    constructor (d: T, ghost n: nat)
      ensures next == null && data == d && number == n
    {
      next, data, number := null, d, n;
    }
  }

  ghost function NumbersOf<T>(ns: seq<Node<T>>): (r: seq<nat>)
    ensures |r| == |ns| && forall i | 0 <= i < |ns| :: r[i] == ns[i].number
  {
    seq(|ns|, i requires 0 <= i < |ns| => ns[i].number)
  }

  lemma NumbersPut<T>(x: Node<T>, ns: seq<Node<T>>)
    ensures NumbersOf([x] + ns) == [x.number] + NumbersOf(ns)
  {
  }

  lemma NumbersGet<T>(ns: seq<Node<T>>)
    requires ns != []
    ensures NumbersOf(ns[1..]) == NumbersOf(ns)[1..] && NumbersOf(ns)[0] == ns[0].number
  {
  }
}
