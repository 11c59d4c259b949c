/** The nibble shift of hide.c: encoding moves every byte half a byte to the right. */
module NibbleCodec {

  type byte = bv8

  function Up(b: byte): byte { b << 4 }
  function Across(b: byte, d: byte): byte { (b >> 4) | d }
  function Upper(b: byte): byte { b & 0xF0 }
  function Lower(b: byte): byte { b & 0x0F }

  /** The bytes written for x after a byte whose low half was `d`, already shifted up. */
  function Shifted(x: seq<byte>, d: byte): seq<byte> {
    if x == [] then [d] else [Across(x[0], d)] + Shifted(x[1..], Up(x[0]))
  }

  function Unshifted(y: seq<byte>, d: byte): seq<byte> {
    if y == [] then [] else [Across(y[0], d)] + Unshifted(y[1..], Up(y[0]))
  }

  function Encoded(x: seq<byte>): seq<byte> { Shifted(x, 0) }

  function Decoded(y: seq<byte>): seq<byte> {
    if y == [] then [] else Unshifted(y[1..], Up(y[0]))
  }

  lemma ShiftedStep(x: seq<byte>, i: nat, d: byte)
    requires i < |x|
    ensures Shifted(x[i..], d) == [Across(x[i], d)] + Shifted(x[i + 1..], Up(x[i]))
    ensures Unshifted(x[i..], d) == [Across(x[i], d)] + Unshifted(x[i + 1..], Up(x[i]))
  {
    hide Up, Across, Upper, Lower;
    assert x[i..][1..] == x[i + 1..];
  }

  method Encode(source: seq<byte>) returns (target: seq<byte>)
    ensures target == Encoded(source)
  {
    var d: byte := 0;
    target := [];
    assert source[0..] == source && Shifted([], d) == [d];
    for i := 0 to |source|
      invariant target + Shifted(source[i..], d) == Encoded(source)
    {
      ShiftedStep(source, i, d);
      hide Shifted, Encoded;
      var buffer := source[i];
      var temp := Across(buffer, d);
      Reassociate(target, temp, Shifted(source[i + 1..], Up(buffer)));
      d := Up(buffer);
      target := target + [temp];
    }
    target := target + [d];
  }

  /** An empty file has no first byte to read, and decodes to an empty one. */
  method Decode(source: seq<byte>) returns (target: seq<byte>)
    ensures target == Decoded(source)
  {
    target := [];
    if source == [] { return; }
    var d := Up(source[0]);
    for i := 1 to |source|
      invariant target + Unshifted(source[i..], d) == Decoded(source)
    {
      ShiftedStep(source, i, d);
      hide Unshifted, Decoded;
      var buffer := source[i];
      var temp := Across(buffer, d);
      Reassociate(target, temp, Unshifted(source[i + 1..], Up(buffer)));
      d := Up(buffer);
      target := target + [temp];
    }
  }

  lemma Reassociate(t: seq<byte>, b: byte, rest: seq<byte>)
    ensures t + ([b] + rest) == t + [b] + rest
  {
  }

  lemma {:induction false} EncodedLength(x: seq<byte>, d: byte)
    ensures |Shifted(x, d)| == |x| + 1
  {
    if x != [] { EncodedLength(x[1..], Up(x[0])); }
  }

  /** What the halves of one byte do in two steps: b is the byte before, x the next one. */
  lemma Halves(b: byte, x: byte)
    ensures Across(Across(x, Up(b)), Upper(b)) == b
    ensures Up(Across(x, Up(b))) == Upper(x) && Up(Across(x, 0)) == Upper(x)
    ensures Across(Up(b), Upper(b)) == b
    ensures Lower(b) == 0 ==> Upper(b) == b
    ensures Upper(Across(x, 0)) == 0 && Lower(Up(x)) == 0 && Upper(0) == 0 && Lower(0) == 0
  {
  }

  lemma {:induction false} UnshiftShifted(x: seq<byte>, b: byte)
    ensures Unshifted(Shifted(x, Up(b)), Upper(b)) == [b] + x
  {
    hide Up, Across, Upper, Lower;
    if x == [] {
      Halves(b, 0);
    } else {
      Halves(b, x[0]);
      UnshiftShifted(x[1..], x[0]);
    }
  }

  lemma {:induction false} ShiftUnshifted(y: seq<byte>, b: byte)
    requires Lower(([b] + y)[|y|]) == 0
    ensures Shifted(Unshifted(y, Up(b)), Upper(b)) == [b] + y
  {
    hide Up, Across, Upper, Lower;
    if y == [] {
      Halves(b, 0);
    } else {
      Halves(b, y[0]);
      ShiftUnshifted(y[1..], y[0]);
    }
  }

  function High(b: byte): byte { b >> 4 }

  /** The half-bytes of a file in order, the upper half of each byte first. */
  function HalfBytes(x: seq<byte>): seq<byte> {
    if x == [] then [] else [High(x[0]), Lower(x[0])] + HalfBytes(x[1..])
  }

  lemma CarriedHalves(x: byte, d: byte)
    requires Lower(d) == 0
    ensures High(Across(x, d)) == High(d) && Lower(Across(x, d)) == High(x)
    ensures High(Up(x)) == Lower(x) && Lower(Up(x)) == 0
  {
  }

  lemma HalfBytesFirst(b: byte, y: seq<byte>)
    ensures HalfBytes([b] + y) == [High(b), Lower(b)] + HalfBytes(y)
  {
    hide High, Lower;
    assert ([b] + y)[1..] == y;
  }

  lemma {:induction false} ShiftedHalfBytes(x: seq<byte>, d: byte)
    requires Lower(d) == 0
    ensures HalfBytes(Shifted(x, d)) == [High(d)] + HalfBytes(x) + [0]
  {
    hide Up, Across, High, Lower;
    if x == [] {
      HalfBytesFirst(d, []);
      assert [d] + [] == [d];
    } else {
      CarriedHalves(x[0], d);
      ShiftedHalfBytes(x[1..], Up(x[0]));
      HalfBytesFirst(Across(x[0], d), Shifted(x[1..], Up(x[0])));
      Regroup(High(d), High(x[0]), Lower(x[0]), HalfBytes(x[1..]));
    }
  }

  lemma Regroup(d: byte, h: byte, l: byte, rest: seq<byte>)
    ensures [d, h] + ([l] + rest + [0]) == [d] + ([h, l] + rest) + [0]
  {
  }

  /** The encoding moves every half-byte one place on: a zero, the half-bytes of the file, and a zero. */
  lemma EncodedHalfBytes(x: seq<byte>)
    ensures HalfBytes(Encoded(x)) == [0] + HalfBytes(x) + [0]
  {
    ShiftedHalfBytes(x, 0);
  }

  /** Decoding what was encoded gives it back, whatever the bytes. */
  lemma RoundTrip(x: seq<byte>)
    ensures Decoded(Encoded(x)) == x && |Encoded(x)| == |x| + 1
  {
    hide Up, Across, Upper, Lower;
    EncodedLength(x, 0);
    if x != [] {
      UnshiftShifted(x[1..], x[0]);
      Halves(0, x[0]);
    }
  }

  /** The upper half of the first byte and the lower half of the last one are zero. */
  predicate Padded(y: seq<byte>) {
    y != [] && Upper(y[0]) == 0 && Lower(y[|y| - 1]) == 0
  }

  lemma {:induction false} ShiftedEnds(x: seq<byte>, d: byte)
    requires Lower(d) == 0
    ensures |Shifted(x, d)| == |x| + 1 && Lower(Shifted(x, d)[|x|]) == 0
  {
    hide Up, Across, Upper, Lower;
    if x != [] {
      Halves(0, x[0]);
      ShiftedEnds(x[1..], Up(x[0]));
    }
  }

  /** Encoding what was decoded gives back exactly the padded files, which are the ones that `encode` writes. */
  lemma ImageIff(y: seq<byte>)
    ensures Padded(y) <==> Encoded(Decoded(y)) == y
    ensures Padded(y) <==> exists x :: Encoded(x) == y
  {
    hide Up, Across, Upper, Lower;
    if Padded(y) {
      ShiftUnshifted(y[1..], y[0]);
    }
    Halves(0, 0);
    if x :| Encoded(x) == y {
      ShiftedEnds(x, 0);
      if x != [] { Halves(0, x[0]); }
    }
  }
}
