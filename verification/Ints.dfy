/** Go's fixed-width integers and its truncating division. */
module Ints {
  type int64 = n: int | -0x8000_0000_0000_0000 <= n < 0x8000_0000_0000_0000

  /** Assigning to a `uint64` is a proof that nothing wraps around. */
  type uint64 = n: int | 0 <= n < 0x1_0000_0000_0000_0000

  const TWO_TO_THE_63 := 0x8000_0000_0000_0000
  const TWO_TO_THE_64 := 0x1_0000_0000_0000_0000

  /** Division that rounds toward zero. */
  function Quotient(a: int, b: int): int
    requires b != 0
  {
    if (a >= 0) == (b > 0) then Magnitude(a) / Magnitude(b) else -(Magnitude(a) / Magnitude(b))
  }

  /** The quotient rounds toward zero: what remains is smaller than the divisor and has the sign of the dividend. */
  lemma QuotientTruncates(a: int, b: int)
    requires b != 0
    ensures var r := a - b * Quotient(a, b);
      Magnitude(r) < Magnitude(b) && (a >= 0 ==> r >= 0) && (a <= 0 ==> r <= 0)
  {
    var m, n := Magnitude(a), Magnitude(b);
    assert m == n * (m / n) + m % n;
    Signs(n, m / n);
  }

  lemma Signs(n: int, q: int)
    ensures -n * q == -(n * q) && n * -q == -(n * q) && -n * -q == n * q
  {
  }

  function Magnitude(a: int): nat {
    if a < 0 then -a else a
  }

  /** Copies one slice over another of the same length. */
  method Copy<T>(dst: array<T>, src: array<T>)
    requires dst.Length == src.Length
    modifies dst
    ensures dst[..] == old(src[..])
  {
    forall i | 0 <= i < dst.Length {
      dst[i] := src[i];
    }
  }

  /** Sets every element, copying ever larger filled prefixes. */
  method Memset<T>(slice: array<T>, v: T)
    modifies slice
    ensures forall i :: 0 <= i < slice.Length ==> slice[i] == v
  {
    if slice.Length == 0 {
      return;
    }
    slice[0] := v;
    var bp := 1;
    while bp < slice.Length
      invariant 1 <= bp
      invariant forall i :: 0 <= i < bp && i < slice.Length ==> slice[i] == v
    {
      var count := if slice.Length - bp < bp then slice.Length - bp else bp;
      forall i | 0 <= i < count {
        slice[bp + i] := slice[i];
      }
      bp := bp * 2;
    }
  }
}
