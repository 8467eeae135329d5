/** The memory-comparable key codec of TiDB, and the key classes read from a decoded key. */
module Codec {
  import opened Bytes
  import opened Ints
  import opened Seqs
  import opened Wrappers

  const GROUP_SIZE := 8
  const MARKER := 0xFF
  const SIGN_MASK := 0x8000_0000_0000_0000

  datatype DecodeError = InsufficientBytes | InvalidMarker | InvalidPadding

  // ---------------------------------------------------------------- byte strings

  function Zeros(n: nat): (z: ByteString)
    ensures |z| == n && forall i | 0 <= i < n :: z[i] == 0
  {
    seq(n, _ => 0)
  }

  /** `x` in a group of `n` slots: zero padding, then the marker that counts it. */
  function Group(x: ByteString, n: nat): ByteString
    requires |x| <= n <= MARKER
  {
    x + Zeros(n - |x|) + [MARKER - (n - |x|)]
  }

  /** The encoding as a function of the data. */
  function Encoded(x: ByteString): ByteString {
    if |x| < GROUP_SIZE then Group(x, GROUP_SIZE)
    else Group(x[..GROUP_SIZE], GROUP_SIZE) + Encoded(x[GROUP_SIZE..])
  }

  datatype Decoded = Decoded(value: ByteString, rest: ByteString)

  /** Decoding, group by group. */
  function Decode(b: ByteString): Result<Decoded, DecodeError> {
    if |b| < GROUP_SIZE + 1 then Err(InsufficientBytes)
    else
      var padCount := MARKER - b[GROUP_SIZE];
      if padCount > GROUP_SIZE then Err(InvalidMarker)
      else if padCount != 0 then
        if b[GROUP_SIZE - padCount..GROUP_SIZE] == Zeros(padCount)
        then Ok(Decoded(b[..GROUP_SIZE - padCount], b[GROUP_SIZE + 1..]))
        else Err(InvalidPadding)
      else
        match Decode(b[GROUP_SIZE + 1..])
        case Ok(d) => Ok(Decoded(b[..GROUP_SIZE] + d.value, d.rest))
        case Err(e) => Err(e)
  }

  method EncodeBytes(data: ByteString) returns (result: ByteString)
    ensures result == Encoded(data)
  {
    result := [];
    var idx := 0;
    while idx <= |data|
      invariant 0 <= idx <= |data| + GROUP_SIZE
      invariant if idx <= |data| then result + Encoded(data[idx..]) == Encoded(data) else result == Encoded(data)
    {
      var remain := |data| - idx;
      var padCount := 0;
      ghost var before := result;
      if remain >= GROUP_SIZE {
        result := result + data[idx..idx + GROUP_SIZE];
      } else {
        padCount := GROUP_SIZE - remain;
        result := result + data[idx..];
        result := result + Zeros(padCount);
      }
      result := result + [MARKER - padCount];
      if remain >= GROUP_SIZE {
        assert result == before + (data[idx..][..GROUP_SIZE] + [MARKER]);
        assert data[idx..][GROUP_SIZE..] == data[idx + GROUP_SIZE..];
        AppendFullGroup(before, data[idx..], data[idx..][..GROUP_SIZE] + [MARKER]);
      } else {
        AppendLastGroup(before, data[idx..], Zeros(padCount), [MARKER - padCount]);
      }
      idx := idx + GROUP_SIZE;
    }
  }

  /** One step of the encoding loop, for a full group and for the last one. */
  lemma AppendFullGroup(before: ByteString, tail: ByteString, group: ByteString)
    requires |tail| >= GROUP_SIZE && group == tail[..GROUP_SIZE] + [MARKER]
    ensures before + group + Encoded(tail[GROUP_SIZE..]) == before + Encoded(tail)
  {
    assert Group(tail[..GROUP_SIZE], GROUP_SIZE) == group;
    ConcatAssociates(before, group, Encoded(tail[GROUP_SIZE..]));
  }

  lemma AppendLastGroup(before: ByteString, tail: ByteString, pad: ByteString, marker: ByteString)
    requires |tail| < GROUP_SIZE && pad == Zeros(GROUP_SIZE - |tail|) && marker == [MARKER - |pad|]
    ensures before + tail + pad + marker == before + Encoded(tail)
  {
    ConcatAssociates(before, tail, pad);
    ConcatAssociates(before, tail + pad, marker);
  }

  method DecodeBytes(b: ByteString) returns (r: Result<Decoded, DecodeError>)
    ensures r == Decode(b)
  {
    var rest, buf: ByteString := b, [];
    assert forall v: ByteString :: buf + v == v;
    while true
      invariant Decode(b) == match Decode(rest) case Ok(d) => Ok(Decoded(buf + d.value, d.rest)) case Err(e) => Err(e)
      decreases |rest|
    {
      if |rest| < GROUP_SIZE + 1 {
        return Err(InsufficientBytes);
      }
      var group, marker := rest[..GROUP_SIZE], rest[GROUP_SIZE];
      var padCount := MARKER - marker;
      if padCount > GROUP_SIZE {
        return Err(InvalidMarker);
      }
      var realGroupSize := GROUP_SIZE - padCount;
      ghost var buf0, rest0 := buf, rest;
      buf := buf + group[..realGroupSize];
      rest := rest[GROUP_SIZE + 1..];
      assert group[..realGroupSize] == rest0[..realGroupSize];
      if padCount != 0 {
        assert group[realGroupSize..] == rest0[realGroupSize..GROUP_SIZE];
        for i := realGroupSize to GROUP_SIZE
          invariant forall k | realGroupSize <= k < i :: group[k] == 0
        {
          if group[i] != 0 {
            assert group[realGroupSize..][i - realGroupSize] != Zeros(padCount)[i - realGroupSize];
            return Err(InvalidPadding);
          }
        }
        assert group[realGroupSize..] == Zeros(padCount);
        return Ok(Decoded(buf, rest));
      }
      assert forall v: ByteString :: buf + v == buf0 + (rest0[..GROUP_SIZE] + v);
    }
  }

  lemma {:induction false} EncodedLength(x: ByteString)
    ensures |Encoded(x)| == (|x| / GROUP_SIZE + 1) * (GROUP_SIZE + 1)
  {
    if |x| >= GROUP_SIZE {
      EncodedLength(x[GROUP_SIZE..]);
    }
  }

  /** Byte `p` of an encoding: eight bytes of data or zeros, then 255 less the number of zeros. */
  lemma {:induction false} EncodedBytes(x: ByteString, p: nat)
    requires p < |Encoded(x)|
    ensures var group, place := p / 9, p % 9;
      Encoded(x)[p] ==
        if place == 8 then (if 8 * group + 8 <= |x| then 0xFF else 0xFF - (8 * group + 8 - |x|))
        else if 8 * group + place < |x| then x[8 * group + place]
        else 0
  {
    EncodedLength(x);
    if |x| >= 8 && p >= 9 {
      EncodedLength(x[8..]);
      EncodedBytes(x[8..], p - 9);
      assert Encoded(x)[p] == Encoded(x[8..])[p - 9] && p / 9 == (p - 9) / 9 + 1 && p % 9 == (p - 9) % 9;
    }
  }

  /** Decoding gives back what was encoded and leaves what follows it. */
  lemma {:induction false} DecodeEncoded(x: ByteString, rest: ByteString)
    ensures Decode(Encoded(x) + rest) == Ok(Decoded(x, rest))
  {
    var b := Encoded(x) + rest;
    if |x| < GROUP_SIZE {
      assert b[GROUP_SIZE] == MARKER - (GROUP_SIZE - |x|);
      assert b[..|x|] == x && b[|x|..GROUP_SIZE] == Zeros(GROUP_SIZE - |x|) && b[GROUP_SIZE + 1..] == rest;
    } else {
      DecodeEncoded(x[GROUP_SIZE..], rest);
      assert b[..GROUP_SIZE] == x[..GROUP_SIZE] && b[GROUP_SIZE] == MARKER;
      assert b[GROUP_SIZE + 1..] == Encoded(x[GROUP_SIZE..]) + rest;
      assert x == x[..GROUP_SIZE] + x[GROUP_SIZE..];
    }
  }

  /** Only encodings decode: there is one encoding for each value. */
  lemma {:induction false} DecodeIsCanonical(b: ByteString)
    requires Decode(b).Ok?
    ensures b == Encoded(Decode(b).value.value) + Decode(b).value.rest
  {
    var padCount := MARKER - b[GROUP_SIZE];
    var tail := b[GROUP_SIZE + 1..];
    if padCount == 0 {
      DecodeIsCanonical(tail);
      var d := Decode(tail).value;
      var x := b[..GROUP_SIZE] + d.value;
      assert x[..GROUP_SIZE] == b[..GROUP_SIZE] && x[GROUP_SIZE..] == d.value;
      assert b == Group(b[..GROUP_SIZE], GROUP_SIZE) + tail;
    } else {
      assert b == Group(b[..GROUP_SIZE - padCount], GROUP_SIZE) + tail;
    }
  }

  lemma PaddingIsZeros(b: ByteString, pad: nat)
    requires pad <= 8 <= |b|
    ensures b[8 - pad..8] == Zeros(pad) <==> forall k :: 8 - pad <= k < 8 ==> b[k] == 0
  {
    var padding := b[8 - pad..8];
    forall i | 0 <= i < pad
      ensures padding[i] == b[8 - pad + i] && Zeros(pad)[i] == 0
    {
    }
    if padding == Zeros(pad) {
      forall k | 8 - pad <= k < 8
        ensures b[k] == 0
      {
        assert padding[k - (8 - pad)] == b[k];
      }
    }
  }

  /** Group `p` is there and its marker says that it is full. */
  predicate FullGroup(b: ByteString, p: nat) {
    9 * p + 9 <= |b| && b[9 * p + 8] == 0xFF
  }

  /** What happens at the first group that is not full: it may be missing, have no valid marker, hold something else
      than zeros where the marker counts padding, or end the value. */
  lemma {:induction false} DecodeStopsAt(b: ByteString, q: nat)
    requires (forall p :: 0 <= p < q ==> FullGroup(b, p)) && !FullGroup(b, q) && 9 * q <= |b|
    ensures |b| < 9 * q + 9 ==> Decode(b) == Err(InsufficientBytes)
    ensures |b| >= 9 * q + 9 ==>
      (var pad := 0xFF - b[9 * q + 8];
       if pad > 8 then Decode(b) == Err(InvalidMarker)
       else if exists k :: 9 * q + 8 - pad <= k < 9 * q + 8 && b[k] != 0 then Decode(b) == Err(InvalidPadding)
       else Decode(b).Ok? && Decode(b).value.rest == b[9 * q + 9..] && |Decode(b).value.value| == 8 * q + 8 - pad)
  {
    if q == 0 {
      if |b| >= 9 && b[8] >= 0xF7 {
        PaddingIsZeros(b, 0xFF - b[8]);
      }
    } else {
      assert FullGroup(b, 0);
      var tail := b[9..];
      forall p | 0 <= p < q - 1
        ensures FullGroup(tail, p)
      {
        assert FullGroup(b, p + 1);
      }
      DecodeStopsAt(tail, q - 1);
      assert forall k :: 9 <= k < |b| ==> b[k] == tail[k - 9];
    }
  }

  /** The inputs that decode are exactly the encodings followed by anything. */
  lemma DecodeSucceedsExactly(b: ByteString, x: ByteString, rest: ByteString)
    ensures Decode(b) == Ok(Decoded(x, rest)) <==> b == Encoded(x) + rest
  {
    DecodeEncoded(x, rest);
    if Decode(b) == Ok(Decoded(x, rest)) {
      DecodeIsCanonical(b);
    }
  }

  lemma {:induction false} ZerosBelow(y: ByteString, n: nat)
    requires 0 < |y| <= n <= MARKER
    ensures Compare(Group([], n), Group(y, n)) == -1
  {
    assert Group([], n)[1..] == Zeros(n - 1) + [MARKER - n];
    assert Group(y, n)[1..] == Group(y[1..], n - 1);
    if y[0] == 0 {
      ZeroMarker(y[1..], n - 1, MARKER - n);
    }
  }

  lemma {:induction false} ZeroMarker(y: ByteString, n: nat, m: byte)
    requires |y| <= n <= MARKER
    requires m < MARKER - (n - |y|)
    ensures Compare(Zeros(n) + [m], Group(y, n)) == -1
  {
    if n > 0 {
      assert (Zeros(n) + [m])[1..] == Zeros(n - 1) + [m];
      if y != [] {
        assert Group(y, n)[1..] == Group(y[1..], n - 1);
        ZeroMarker(y[1..], n - 1, m);
      } else {
        assert Group(y, n) == Zeros(n) + [MARKER - n];
        CompareConcat(Zeros(n), Zeros(n), [m], [MARKER - n]);
      }
    }
  }

  /** Within one group, padding and marker keep the order of the contents. */
  lemma {:induction false} GroupKeepsOrder(x: ByteString, y: ByteString, n: nat)
    requires |x| <= n <= MARKER && |y| <= n
    ensures Compare(Group(x, n), Group(y, n)) == Compare(x, y)
  {
    if x == [] && y != [] {
      ZerosBelow(y, n);
    } else if x != [] && y == [] {
      ZerosBelow(x, n);
      CompareAntisymmetric(Group(x, n), Group(y, n));
    } else if x != [] && y != [] {
      assert Group(x, n)[1..] == Group(x[1..], n - 1) && Group(y, n)[1..] == Group(y[1..], n - 1);
      GroupKeepsOrder(x[1..], y[1..], n - 1);
    }
  }

  /** A string shorter than `k` compares to `y` as it does to the first `k` bytes of `y`. */
  lemma {:induction false} CompareTake(x: ByteString, y: ByteString, k: nat)
    requires |x| < k <= |y|
    ensures Compare(x, y) == Compare(x, y[..k])
  {
    if x != [] {
      assert y[..k][1..] == y[1..][..k - 1];
      CompareTake(x[1..], y[1..], k - 1);
    }
  }

  /** Encoding keeps the order of byte strings, and no suffixes can upset it. */
  lemma {:induction false} EncodedKeepsOrder(x: ByteString, y: ByteString, r: ByteString, s: ByteString)
    ensures Compare(Encoded(x) + r, Encoded(y) + s) == if x == y then Compare(r, s) else Compare(x, y)
    decreases |x| + |y|
  {
    var x0, y0 := FirstGroup(x), FirstGroup(y);
    var x1, y1 := Encoded(x)[GROUP_SIZE + 1..] + r, Encoded(y)[GROUP_SIZE + 1..] + s;
    assert Encoded(x) + r == Group(x0, GROUP_SIZE) + x1 && Encoded(y) + s == Group(y0, GROUP_SIZE) + y1;
    CompareConcat(Group(x0, GROUP_SIZE), Group(y0, GROUP_SIZE), x1, y1);
    GroupKeepsOrder(x0, y0, GROUP_SIZE);
    if |x| >= GROUP_SIZE && |y| >= GROUP_SIZE {
      assert x == x0 + x[GROUP_SIZE..] && y == y0 + y[GROUP_SIZE..];
      assert x1 == Encoded(x[GROUP_SIZE..]) + r && y1 == Encoded(y[GROUP_SIZE..]) + s;
      CompareConcat(x0, y0, x[GROUP_SIZE..], y[GROUP_SIZE..]);
      EncodedKeepsOrder(x[GROUP_SIZE..], y[GROUP_SIZE..], r, s);
    } else if |x| < GROUP_SIZE <= |y| {
      CompareTake(x, y, GROUP_SIZE);
    } else if |y| < GROUP_SIZE <= |x| {
      CompareTake(y, x, GROUP_SIZE);
      CompareAntisymmetric(x, y);
      CompareAntisymmetric(x0, y0);
    } else {
      assert x1 == r && y1 == s;
    }
  }

  function FirstGroup(x: ByteString): ByteString {
    if |x| < GROUP_SIZE then x else x[..GROUP_SIZE]
  }

  // ---------------------------------------------------------------- integers

  /** Two's complement of `v` with its sign bit flipped. */
  function EncodeIntToCmpUint(v: int64): uint64 {
    FlipSign(if v < 0 then v + 2 * SIGN_MASK else v)
  }

  function DecodeCmpUintToInt(u: uint64): int64 {
    var w := FlipSign(u);
    if w >= SIGN_MASK then w - 2 * SIGN_MASK else w
  }

  /** `u ^ SIGN_MASK`: the top bit is flipped. */
  function FlipSign(u: uint64): uint64 {
    if u >= SIGN_MASK then u - SIGN_MASK else u + SIGN_MASK
  }

  /** `u` as `n` bytes, the most significant first. */
  function BigEndian(u: nat, n: nat): (s: ByteString)
    ensures |s| == n
  {
    if n == 0 then [] else BigEndian(u / 0x100, n - 1) + [u % 0x100]
  }

  function FromBigEndian(s: ByteString): nat {
    if s == [] then 0 else FromBigEndian(s[..|s| - 1]) * 0x100 + s[|s| - 1]
  }

  function Power256(n: nat): nat {
    if n == 0 then 1 else 0x100 * Power256(n - 1)
  }

  function EncodeInt(v: int64): (s: ByteString)
    ensures |s| == 8
  {
    BigEndian(EncodeIntToCmpUint(v), 8)
  }

  function DecodeInt(b: ByteString): Result<(int64, ByteString), DecodeError> {
    if |b| < 8 then Err(InsufficientBytes)
    else
      FromBigEndianBound(b[..8]);
      Ok((DecodeCmpUintToInt(FromBigEndian(b[..8])), b[8..]))
  }

  lemma {:induction false} FromBigEndianBound(s: ByteString)
    ensures FromBigEndian(s) < Power256(|s|)
    ensures Power256(8) == 0x1_0000_0000_0000_0000
  {
    if s != [] {
      FromBigEndianBound(s[..|s| - 1]);
    }
    assert Power256(8) == 0x100 * 0x100 * 0x100 * 0x100 * Power256(4);
  }

  lemma {:induction false} BigEndianRoundTrip(u: nat, n: nat)
    requires u < Power256(n)
    ensures FromBigEndian(BigEndian(u, n)) == u
  {
    if n > 0 {
      assert u / 0x100 < Power256(n - 1);
      BigEndianRoundTrip(u / 0x100, n - 1);
      assert BigEndian(u, n)[..n - 1] == BigEndian(u / 0x100, n - 1);
    }
  }

  function Sign(a: int, b: int): int {
    if a < b then -1 else if a > b then 1 else 0
  }

  lemma {:induction false} BigEndianKeepsOrder(u: nat, w: nat, n: nat)
    requires u < Power256(n) && w < Power256(n)
    ensures Compare(BigEndian(u, n), BigEndian(w, n)) == Sign(u, w)
  {
    if n > 0 {
      BigEndianKeepsOrder(u / 0x100, w / 0x100, n - 1);
      CompareConcat(BigEndian(u / 0x100, n - 1), BigEndian(w / 0x100, n - 1), [u % 0x100], [w % 0x100]);
    }
  }

  /** Encoded integers compare, byte by byte, as the signed integers do, whatever follows them. */
  lemma EncodeIntKeepsOrder(v: int64, w: int64, r: ByteString, s: ByteString)
    ensures Compare(EncodeInt(v) + r, EncodeInt(w) + s) == if v == w then Compare(r, s) else Sign(v, w)
  {
    FromBigEndianBound([]);
    BigEndianKeepsOrder(EncodeIntToCmpUint(v), EncodeIntToCmpUint(w), 8);
    CompareConcat(EncodeInt(v), EncodeInt(w), r, s);
  }

  lemma DecodeEncodedInt(v: int64, rest: ByteString)
    ensures DecodeInt(EncodeInt(v) + rest) == Ok((v, rest))
  {
    FromBigEndianBound([]);
    BigEndianRoundTrip(EncodeIntToCmpUint(v), 8);
    assert (EncodeInt(v) + rest)[..8] == EncodeInt(v) && (EncodeInt(v) + rest)[8..] == rest;
  }

  lemma {:induction false} BigEndianBack(s: ByteString)
    ensures BigEndian(FromBigEndian(s), |s|) == s
  {
    if s != [] {
      BigEndianBack(s[..|s| - 1]);
      assert s == s[..|s| - 1] + [s[|s| - 1]];
    }
  }

  /** Any eight bytes are the encoding of one integer: decoding and encoding are inverse to each other. */
  lemma DecodeIntExactly(b: ByteString, v: int64, rest: ByteString)
    ensures DecodeInt(b) == Ok((v, rest)) <==> b == EncodeInt(v) + rest
    ensures DecodeInt(b).Err? <==> |b| < 8
  {
    DecodeEncodedInt(v, rest);
    if DecodeInt(b) == Ok((v, rest)) {
      FromBigEndianBound(b[..8]);
      BigEndianBack(b[..8]);
      SignsBack(FromBigEndian(b[..8]));
      assert b == b[..8] + b[8..];
    }
  }

  lemma SignsBack(u: uint64)
    ensures EncodeIntToCmpUint(DecodeCmpUintToInt(u)) == u
  {
  }

  // ---------------------------------------------------------------- key classes

  const TABLE_PREFIX: byte := 0x74
  const META_PREFIX: byte := 0x6D
  const RECORD_PREFIX: byte := 0x72
  const INDEX_LETTER: byte := 0x69
  const UNDERSCORE: byte := 0x5F

  predicate HasPrefix(data: ByteString, first: byte) {
    |data| > 0 && data[0] == first
  }

  function IntOrZero(b: ByteString): int64 {
    match DecodeInt(b)
    case Ok(p) => p.0
    case Err(_) => 0
  }

  function MetaOrTable(data: ByteString): (r: (bool, int64)) {
    if HasPrefix(data, META_PREFIX) then (true, 0)
    else if HasPrefix(data, TABLE_PREFIX) then (false, IntOrZero(data[1..]))
    else (false, 0)
  }

  function RowInfo(data: ByteString): (r: (bool, int64)) {
    if !HasPrefix(data, TABLE_PREFIX) || |data| < 19 || !(data[9] == UNDERSCORE && data[10] == RECORD_PREFIX)
    then (false, 0)
    else if |data| != 19 then (true, 0)
    else (false, IntOrZero(data[11..19]))
  }

  function IndexInfo(data: ByteString): int64 {
    if !HasPrefix(data, TABLE_PREFIX) || |data| < 19 || !(data[9] == UNDERSCORE && data[10] == INDEX_LETTER) then 0
    else IntOrZero(data[11..19])
  }

  /** The unencoded form of a generated key. */
  function KeyData(tableID: int64, rowID: int64): ByteString {
    [TABLE_PREFIX] + EncodeInt(tableID) + (if rowID != 0 then [RECORD_PREFIX] + EncodeInt(rowID) else [])
  }

  /** A reusable buffer: every decode or generation overwrites what it held. */
  class KeyInfoBuffer {
    var data: ByteString

    constructor ()
      ensures data == []
    {
      data := [];
    }

    method DecodeKey(key: ByteString) returns (err: Option<DecodeError>)
      modifies this
      ensures match Decode(key)
              case Ok(d) => err == None && data == d.value
              case Err(e) => err == Some(e) && data == []
    {
      var r := DecodeBytes(key);
      match r {
        case Ok(d) => data, err := d.value, None;
        case Err(e) => data, err := [], Some(e);
      }
    }

    /** No key is generated, and the buffer is left alone, for table 0. */
    method GenerateKey(tableID: int64, rowID: int64) returns (key: Option<ByteString>)
      modifies this
      ensures tableID == 0 ==> key == None && data == old(data)
      ensures tableID != 0 ==> key == Some(Encoded(KeyData(tableID, rowID))) && data == KeyData(tableID, rowID)
    {
      if tableID == 0 {
        return None;
      }
      data := [];
      data := data + [TABLE_PREFIX];
      data := data + EncodeInt(tableID);
      if rowID != 0 {
        data := data + [RECORD_PREFIX];
        data := data + EncodeInt(rowID);
      }
      assert data == KeyData(tableID, rowID);
      var encoded := EncodeBytes(data);
      key := Some(encoded);
    }
  }

  /** What a generated key reads back as. The table is recovered; the row never is, because the
      marker written is one byte and the one looked for has two. */
  lemma GeneratedKeyReadsBack(tableID: int64, rowID: int64)
    requires tableID != 0
    ensures Decode(Encoded(KeyData(tableID, rowID))) == Ok(Decoded(KeyData(tableID, rowID), []))
    ensures MetaOrTable(KeyData(tableID, rowID)) == (false, tableID)
    ensures IndexInfo(KeyData(tableID, rowID)) == 0
    ensures RowInfo(KeyData(tableID, rowID)).1 == rowID <==> rowID == 0
  {
    var data := KeyData(tableID, rowID);
    DecodeEncoded(data, []);
    assert Encoded(data) + [] == Encoded(data);
    var rest := if rowID != 0 then [RECORD_PREFIX] + EncodeInt(rowID) else [];
    assert data[1..] == EncodeInt(tableID) + rest;
    DecodeEncodedInt(tableID, rest);
  }

  /** What `RowInfo` reads: a record marker `_r` at its place makes a row key; the row is read only if nothing follows
      it. */
  lemma RowInfoReads(t: int64, row: int64, rest: ByteString)
    ensures var data := [0x74] + EncodeInt(t) + [0x5F, 0x72] + EncodeInt(row) + rest;
      RowInfo(data) == if rest == [] then (false, row) else (true, 0)
  {
    var data := [0x74] + EncodeInt(t) + [0x5F, 0x72] + EncodeInt(row) + rest;
    assert data[11..19] == EncodeInt(row);
    DecodeEncodedInt(row, []);
    assert EncodeInt(row) + [] == EncodeInt(row);
  }

  /** The bytes of a generated key before encoding: a letter and the table, and for a row another letter and the row. */
  lemma KeyDataBytes(tableID: int64, rowID: int64)
    ensures var data := KeyData(tableID, rowID);
      && |data| == (if rowID == 0 then 9 else 18) && data[0] == 0x74 && data[1..9] == EncodeInt(tableID)
      && (rowID != 0 ==> data[9] == 0x72 && data[10..] == EncodeInt(rowID))
  {
  }

  /** A row key whose row is not read back. */
  lemma GeneratedRowIsLost()
    ensures RowInfo(KeyData(1, 7)) == (false, 0)
  {
    GeneratedKeyReadsBack(1, 7);
  }

  /** Generated keys sort by table, then table key before row keys, then by row. */
  lemma GeneratedKeysKeepOrder(t: int64, r: int64, u: int64, s: int64)
    ensures Compare(Encoded(KeyData(t, r)), Encoded(KeyData(u, s)))
         == if t != u then Sign(t, u)
            else if r == 0 || s == 0 then (if r == s then 0 else if r == 0 then -1 else 1)
            else Sign(r, s)
  {
    var x, y := KeyData(t, r), KeyData(u, s);
    var xr := if r != 0 then [RECORD_PREFIX] + EncodeInt(r) else [];
    var ys := if s != 0 then [RECORD_PREFIX] + EncodeInt(s) else [];
    EncodedKeepsOrder(x, y, [], []);
    assert Encoded(x) + [] == Encoded(x) && Encoded(y) + [] == Encoded(y);
    assert x == [TABLE_PREFIX] + (EncodeInt(t) + xr) && y == [TABLE_PREFIX] + (EncodeInt(u) + ys);
    CompareConcat([TABLE_PREFIX], [TABLE_PREFIX], EncodeInt(t) + xr, EncodeInt(u) + ys);
    EncodeIntKeepsOrder(t, u, xr, ys);
    if t == u && r != 0 && s != 0 {
      CompareConcat([RECORD_PREFIX], [RECORD_PREFIX], EncodeInt(r), EncodeInt(s));
      EncodeIntKeepsOrder(r, s, [], []);
      assert EncodeInt(r) + [] == EncodeInt(r) && EncodeInt(s) + [] == EncodeInt(s);
    }
  }
}
