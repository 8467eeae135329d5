/** Which keys the TiDB labeler lets share a bucket. */
module Labeler {
  import opened Bytes
  import opened Wrappers
  import opened Codec
  import opened Ints
  import opened Keys
  import opened Greedy
  import opened FocusPlan

  /** The logical range a key belongs to: metadata, or one index of one table. */
  datatype KeyClass = Meta | Table(table: int64, index: int64)

  function ClassOfData(data: ByteString): KeyClass {
    if MetaOrTable(data).0 then Meta else Table(MetaOrTable(data).1, IndexInfo(data))
  }

  /** Keys that do not decode belong to index 0 of table 0. */
  function ClassOf(key: ByteString): KeyClass {
    match Decode(key)
    case Ok(d) => ClassOfData(d.value)
    case Err(_) => Table(0, 0)
  }

  /** The class of every key, by the bytes it decodes to. */
  lemma {:induction false} ClassOfBytes(key: ByteString, data: ByteString, t: int64, i: int64, rest: ByteString)
    ensures Decode(key).Err? ==> ClassOf(key) == Table(0, 0)
    ensures (data == [] || (data[0] != 0x6D && data[0] != 0x74)) ==> ClassOf(Encoded(data)) == Table(0, 0)
    ensures ClassOf(Encoded([0x6D] + rest)) == Meta
    ensures |rest| < 8 ==> ClassOf(Encoded([0x74] + rest)) == Table(0, 0)
    ensures |rest| < 10 || rest[..2] != [0x5F, 0x69] ==> ClassOf(Encoded([0x74] + EncodeInt(t) + rest)) == Table(t, 0)
    ensures ClassOf(Encoded([0x74] + EncodeInt(t) + [0x5F, 0x69] + EncodeInt(i) + rest)) == Table(t, i)
  {
    EncodedClass(data);
    EncodedClass([0x6D] + rest);
    EncodedClass([0x74] + rest);
    assert ([0x74] + rest)[1..] == rest;
    if |rest| < 10 || rest[..2] != [0x5F, 0x69] {
      TableClass(t, rest);
    }
    IndexClass(t, i, rest);
  }

  lemma EncodedClass(data: ByteString)
    ensures ClassOf(Encoded(data)) == ClassOfData(data)
  {
    DecodeEncoded(data, []);
    assert Encoded(data) + [] == Encoded(data);
  }

  lemma TableClass(t: int64, rest: ByteString)
    requires |rest| < 10 || rest[..2] != [0x5F, 0x69]
    ensures ClassOf(Encoded([0x74] + EncodeInt(t) + rest)) == Table(t, 0)
  {
    hide EncodeInt, DecodeInt, Encoded, ClassOf;
    var data := [0x74] + EncodeInt(t) + rest;
    EncodedClass(data);
    DecodeEncodedInt(t, rest);
    assert data[1..] == EncodeInt(t) + rest;
    if |rest| >= 10 {
      assert data[9] == rest[0] && data[10] == rest[1];
      NotIndexMark(rest);
    }
  }

  lemma NotIndexMark(rest: ByteString)
    requires |rest| >= 2 && rest[..2] != [0x5F, 0x69]
    ensures rest[0] != 0x5F || rest[1] != 0x69
  {
    assert rest[..2] == [rest[0], rest[1]];
  }

  lemma IndexClass(t: int64, i: int64, rest: ByteString)
    ensures ClassOf(Encoded([0x74] + EncodeInt(t) + [0x5F, 0x69] + EncodeInt(i) + rest)) == Table(t, i)
  {
    var tail := [0x5F, 0x69] + EncodeInt(i) + rest;
    var data := [0x74] + EncodeInt(t) + [0x5F, 0x69] + EncodeInt(i) + rest;
    EncodedClass(data);
    DecodeEncodedInt(t, tail);
    assert data[1..] == EncodeInt(t) + tail;
    DecodeEncodedInt(i, []);
    assert data[11..19] == EncodeInt(i) == EncodeInt(i) + [];
  }

  predicate CrossesBorder(startKey: ByteString, endKey: ByteString) {
    ClassOf(startKey) != ClassOf(endKey)
  }

  class TidbLabeler {
    const buffer: KeyInfoBuffer

    constructor ()
      ensures fresh(buffer)
    {
      buffer := new KeyInfoBuffer();
    }

    /** Both keys are decoded into the one buffer; what it held before does not matter. */
    method CrossBorder(startKey: ByteString, endKey: ByteString) returns (crosses: bool)
      modifies buffer
      ensures crosses == CrossesBorder(startKey, endKey)
    {
      var startErr := buffer.DecodeKey(startKey);
      var startInfo := if startErr == None then buffer.data else [];
      var (startIsMeta, startTableID) := MetaOrTable(startInfo);
      var startIndex := IndexInfo(startInfo);

      var endErr := buffer.DecodeKey(endKey);
      var endInfo := if endErr == None then buffer.data else [];
      var (endIsMeta, endTableID) := MetaOrTable(endInfo);
      var endIndex := IndexInfo(endInfo);

      if startIsMeta || endIsMeta {
        return startIsMeta != endIsMeta;
      }
      if startTableID != endTableID {
        return true;
      }
      return startIndex != endIndex;
    }
  }

  /** For keys made by `GenerateKey`, a border is a change of table. */
  lemma GeneratedKeysCrossByTable(t: int64, r: int64, u: int64, s: int64)
    requires t != 0 && u != 0
    ensures CrossesBorder(Encoded(KeyData(t, r)), Encoded(KeyData(u, s))) <==> t != u
  {
    GeneratedKeyReadsBack(t, r);
    GeneratedKeyReadsBack(u, s);
  }

  /** Index keys cross a border if and only if their tables or their indexes differ; a table key, or a row key, crosses
      to the index keys of its table unless the index is 0; metadata crosses to all tables, and not to metadata. */
  lemma {:induction false} KeysCross(t: int64, i: int64, u: int64, j: int64, r: ByteString, s: ByteString)
    ensures var key := Encoded([0x74] + EncodeInt(t) + [0x5F, 0x69] + EncodeInt(i) + r);
      && (CrossesBorder(key, Encoded([0x74] + EncodeInt(u) + [0x5F, 0x69] + EncodeInt(j) + s)) <==> t != u || i != j)
      && (CrossesBorder(key, Encoded([0x74] + EncodeInt(u) + [0x5F, 0x72] + s)) <==> t != u || i != 0)
      && (CrossesBorder(key, Encoded([0x74] + EncodeInt(u))) <==> t != u || i != 0)
      && CrossesBorder(key, Encoded([0x6D] + s)) && CrossesBorder(Encoded([0x6D] + s), key)
      && !CrossesBorder(Encoded([0x6D] + r), Encoded([0x6D] + s))
  {
    IndexClass(t, i, r);
    IndexClass(u, j, s);
    TableClass(u, [0x5F, 0x72] + s);
    TableClass(u, []);
    assert [0x74] + EncodeInt(u) + ([0x5F, 0x72] + s) == [0x74] + EncodeInt(u) + [0x5F, 0x72] + s;
    assert [0x74] + EncodeInt(u) + [] == [0x74] + EncodeInt(u);
    ClassOfBytes([], [], t, i, r);
    ClassOfBytes([], [], t, i, s);
  }

  /** Not crossing a border is an equivalence of keys. */
  lemma BordersClassify()
    ensures Classifies(CrossesBorder)
  {
  }

  /** With the TiDB labeler, dividing to a target of at least 2 makes fewer rows than the target, but for one
      more at each change of table, of index, or between metadata and tables. */
  lemma {:induction false} DivideByTables(keys: seq<Key>, values: seq<nat>, target: int, mode: FocusMode)
    requires 1 <= |values| == |keys| - 1 && 2 <= target
    ensures DivideRule(keys, values, CrossesBorder, target).Ok?
    ensures var cuts := FocusCuts(keys, values, DivideRule(keys, values, CrossesBorder, target).value, target, mode);
      |cuts| - 1 <= target - 1 + Changes(keys, CrossesBorder, |values|)
  {
    BordersClassify();
    DivideMeetsTarget(keys, values, CrossesBorder, target, mode);
  }
}
