/** Byte strings and their lexicographic order, as Go compares strings. */
module Bytes {

  type byte = n: int | 0 <= n < 0x100

  type ByteString = seq<byte>

  /** Three-way lexicographic comparison: -1, 0 or 1. */
  function Compare(a: ByteString, b: ByteString): (r: int)
    ensures r == 0 <==> a == b
    ensures r == -1 || r == 0 || r == 1
  {
    if a == [] then (if b == [] then 0 else -1)
    else if b == [] then 1
    else if a[0] < b[0] then -1
    else if a[0] > b[0] then 1
    else
      assert a == [a[0]] + a[1..] && b == [b[0]] + b[1..];
      Compare(a[1..], b[1..])
  }

  predicate Less(a: ByteString, b: ByteString) {
    Compare(a, b) < 0
  }

  lemma {:induction false} CompareAntisymmetric(a: ByteString, b: ByteString)
    ensures Compare(a, b) == -Compare(b, a)
  {
    if a != [] && b != [] && a[0] == b[0] {
      CompareAntisymmetric(a[1..], b[1..]);
    }
  }

  lemma {:induction false} LessTransitive(a: ByteString, b: ByteString, c: ByteString)
    requires Less(a, b) && Less(b, c)
    ensures Less(a, c)
  {
    if a != [] && b != [] && c != [] && a[0] == b[0] == c[0] {
      LessTransitive(a[1..], b[1..], c[1..]);
    }
  }

  lemma LessTotal(a: ByteString, b: ByteString)
    ensures a == b || Less(a, b) || Less(b, a)
    ensures !(Less(a, b) && Less(b, a)) && !Less(a, a)
  {
    CompareAntisymmetric(a, b);
  }

  /** Two prefixes of equal length decide, unless they are equal. */
  lemma {:induction false} CompareConcat(p: ByteString, q: ByteString, a: ByteString, b: ByteString)
    requires |p| == |q|
    ensures Compare(p + a, q + b) == if p == q then Compare(a, b) else Compare(p, q)
  {
    if p == [] {
      assert p + a == a && q + b == b;
    } else {
      assert (p + a)[1..] == p[1..] + a && (q + b)[1..] == q[1..] + b;
      assert p == [p[0]] + p[1..] && q == [q[0]] + q[1..];
      CompareConcat(p[1..], q[1..], a, b);
    }
  }
}
