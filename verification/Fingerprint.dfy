/**
 The change fingerprint: the canonical encoding of the metadata without its volatile statistics.
 Metadata has the same fingerprint exactly when it differs in statistics only.
 */
module Fingerprint {
  import opened ProtoMessage
  import opened CanonicalEncoding
  import opened CanonicalEncoder
  import opened Sanitizer

  const FINGERPRINT_DOMAIN := "metaxisdata.meta.fingerprint.v1\0"

  // Field numbers of StoredMetadata, TableMetadata and SequenceMetadata.
  const TABLE_METADATA := 3
  const SEQUENCE_METADATA := 10
  const ROW_COUNT := 6
  const DATA_SIZE := 7
  const INDEX_SIZE := 8
  const DATA_FREE := 9
  const LAST_VALUE := 9

  const TABLE_STATISTICS: set<nat> := {ROW_COUNT, DATA_SIZE, INDEX_SIZE, DATA_FREE}
  const SEQUENCE_STATISTICS: set<nat> := {LAST_VALUE}

  function AsciiBytes(s: string): Bytes {
    seq(|s|, i requires 0 <= i < |s| => if s[i] as int < 256 then s[i] as int else 0)
  }

  // ----- Statistics -----

  predicate HasSubMessage(m: Message, number: nat) {
    number in m.fields && m.fields[number].Singular? && m.fields[number].value.MessageValue?
  }

  function SubMessage(m: Message, number: nat): Message
    requires HasSubMessage(m, number)
  {
    m.fields[number].value.message
  }

  /** Setting fields without presence to their zero value leaves them unpopulated. */
  function WithoutFields(m: Message, numbers: set<nat>): Message {
    Message(m.fields - numbers)
  }

  function WithSubMessage(m: Message, number: nat, sub: Message): Message {
    Message(m.fields[number := Singular(MessageValue(sub))])
  }

  /** normalizeMetadataForHash */
  function Normalize(m: Message): Message {
    if HasSubMessage(m, TABLE_METADATA) then
      WithSubMessage(m, TABLE_METADATA, WithoutFields(SubMessage(m, TABLE_METADATA), TABLE_STATISTICS))
    else if HasSubMessage(m, SEQUENCE_METADATA) then
      WithSubMessage(m, SEQUENCE_METADATA, WithoutFields(SubMessage(m, SEQUENCE_METADATA), SEQUENCE_STATISTICS))
    else m
  }

  /** What is dropped, by field number: row count, sizes and free space of a table, a sequence's last value. */
  lemma DroppedByNumber(m: Message)
    ensures HasSubMessage(m, 3) ==>
              Normalize(m) == Message(m.fields[3 := Singular(MessageValue(Message(SubMessage(m, 3).fields - {6, 7, 8, 9})))])
    ensures !HasSubMessage(m, 3) && HasSubMessage(m, 10) ==>
              Normalize(m) == Message(m.fields[10 := Singular(MessageValue(Message(SubMessage(m, 10).fields - {9})))])
    ensures !HasSubMessage(m, 3) && !HasSubMessage(m, 10) ==> Normalize(m) == m
  {
  }

  /** The hashed bytes start with the domain and a zero byte. */
  lemma DomainFirst(m: Message, i: nat)
    requires i < 32
    ensures |HashedBytes(m)| >= 32
    ensures HashedBytes(m)[i] == if i < 31 then "metaxisdata.meta.fingerprint.v1"[i] as int else 0
  {
    assert |"metaxisdata.meta.fingerprint.v1"| == 31 && |FINGERPRINT_DOMAIN| == 32;
    assert FINGERPRINT_DOMAIN == "metaxisdata.meta.fingerprint.v1" + "\0";
    assert FINGERPRINT_DOMAIN[i] == if i < 31 then "metaxisdata.meta.fingerprint.v1"[i] else '\0';
  }

  datatype Statistics = Statistics(rowCount: int, dataSize: int, indexSize: int, dataFree: int, sequenceLastValue: Bytes)

  function Int64Of(m: Message, number: nat): int {
    if number in m.fields && m.fields[number].Singular? && m.fields[number].value.Int64Value?
    then m.fields[number].value.int64
    else 0
  }

  function TextOf(m: Message, number: nat): Bytes {
    if number in m.fields && m.fields[number].Singular? && m.fields[number].value.StringValue?
    then m.fields[number].value.text
    else []
  }

  /** MetadataStatistics */
  function MetadataStatistics(m: Message): Statistics {
    if HasSubMessage(m, TABLE_METADATA) then
      var table := SubMessage(m, TABLE_METADATA);
      Statistics(Int64Of(table, ROW_COUNT), Int64Of(table, DATA_SIZE), Int64Of(table, INDEX_SIZE), Int64Of(table, DATA_FREE), [])
    else if HasSubMessage(m, SEQUENCE_METADATA) then
      Statistics(0, 0, 0, 0, TextOf(SubMessage(m, SEQUENCE_METADATA), LAST_VALUE))
    else Statistics(0, 0, 0, 0, [])
  }

  lemma StatisticsByNumber(m: Message)
    ensures HasSubMessage(m, 3) ==>
              var table := SubMessage(m, 3);
              MetadataStatistics(m) == Statistics(Int64Of(table, 6), Int64Of(table, 7), Int64Of(table, 8), Int64Of(table, 9), [])
    ensures !HasSubMessage(m, 3) && HasSubMessage(m, 10) ==>
              MetadataStatistics(m) == Statistics(0, 0, 0, 0, TextOf(SubMessage(m, 10), 9))
  {
  }

  /** A populated field without presence is not zero. */
  ghost predicate PopulatedInt64(m: Message, number: nat) {
    number in m.fields ==> Int64Of(m, number) != 0 && m.fields[number] == Singular(Int64Value(Int64Of(m, number)))
  }

  ghost predicate PopulatedText(m: Message, number: nat) {
    number in m.fields ==> TextOf(m, number) != [] && m.fields[number] == Singular(StringValue(TextOf(m, number)))
  }

  /** The parts of the StoredMetadata descriptor the statistics rely on. */
  ghost predicate IsStoredMetadata(m: Message) {
    && (TABLE_METADATA in m.fields ==> HasSubMessage(m, TABLE_METADATA) && SEQUENCE_METADATA !in m.fields)
    && (SEQUENCE_METADATA in m.fields ==> HasSubMessage(m, SEQUENCE_METADATA))
    && (HasSubMessage(m, TABLE_METADATA) ==>
          forall n | n in TABLE_STATISTICS :: PopulatedInt64(SubMessage(m, TABLE_METADATA), n))
    && (HasSubMessage(m, SEQUENCE_METADATA) ==> PopulatedText(SubMessage(m, SEQUENCE_METADATA), LAST_VALUE))
  }

  lemma WithoutFieldsDetermines(a: Message, b: Message, numbers: set<nat>)
    requires WithoutFields(a, numbers) == WithoutFields(b, numbers)
    requires forall n | n in numbers :: (n in a.fields <==> n in b.fields) && (n in a.fields ==> a.fields[n] == b.fields[n])
    ensures a == b
  {
    forall n ensures n in a.fields <==> n in b.fields {
      assert n !in numbers ==> (n in a.fields <==> n in WithoutFields(a, numbers).fields);
      assert n !in numbers ==> (n in b.fields <==> n in WithoutFields(b, numbers).fields);
    }
    forall n | n in a.fields ensures a.fields[n] == b.fields[n] {
      if n !in numbers {
        assert WithoutFields(a, numbers).fields[n] == a.fields[n] && WithoutFields(b, numbers).fields[n] == b.fields[n];
      }
    }
    assert a.fields == b.fields;
  }

  lemma SameSubMessage(a: Message, b: Message, number: nat, subA: Message, subB: Message)
    requires HasSubMessage(a, number) && HasSubMessage(b, number)
    requires WithSubMessage(a, number, subA) == WithSubMessage(b, number, subB)
    ensures subA == subB
    ensures SubMessage(a, number) == SubMessage(b, number) ==> a == b
  {
    var x, y := WithSubMessage(a, number, subA).fields, WithSubMessage(b, number, subB).fields;
    assert x[number] == Singular(MessageValue(subA)) && y[number] == Singular(MessageValue(subB));
    forall n ensures n in a.fields <==> n in b.fields {
      assert n in a.fields <==> n in x;
      assert n in b.fields <==> n in y;
    }
    forall n | n in a.fields && n != number ensures a.fields[n] == b.fields[n] {
      assert x[n] == a.fields[n] && y[n] == b.fields[n];
    }
    if SubMessage(a, number) == SubMessage(b, number) { assert a.fields == b.fields; }
  }

  lemma NormalizedShape(m: Message)
    requires IsStoredMetadata(m)
    ensures TABLE_METADATA in m.fields <==> TABLE_METADATA in Normalize(m).fields
    ensures SEQUENCE_METADATA in m.fields <==> SEQUENCE_METADATA in Normalize(m).fields
  {
  }

  lemma TableDetermined(a: Message, b: Message)
    requires IsStoredMetadata(a) && IsStoredMetadata(b)
    requires TABLE_METADATA in a.fields && TABLE_METADATA in b.fields
    requires Normalize(a) == Normalize(b) && MetadataStatistics(a) == MetadataStatistics(b)
    ensures a == b
  {
    var x, y := SubMessage(a, TABLE_METADATA), SubMessage(b, TABLE_METADATA);
    SameSubMessage(a, b, TABLE_METADATA, WithoutFields(x, TABLE_STATISTICS), WithoutFields(y, TABLE_STATISTICS));
    forall n | n in TABLE_STATISTICS ensures (n in x.fields <==> n in y.fields) && (n in x.fields ==> x.fields[n] == y.fields[n]) {
      assert PopulatedInt64(x, n) && PopulatedInt64(y, n);
      assert Int64Of(x, n) == Int64Of(y, n);
    }
    WithoutFieldsDetermines(x, y, TABLE_STATISTICS);
  }

  lemma SequenceDetermined(a: Message, b: Message)
    requires IsStoredMetadata(a) && IsStoredMetadata(b)
    requires SEQUENCE_METADATA in a.fields && SEQUENCE_METADATA in b.fields
    requires Normalize(a) == Normalize(b) && MetadataStatistics(a) == MetadataStatistics(b)
    ensures a == b
  {
    var x, y := SubMessage(a, SEQUENCE_METADATA), SubMessage(b, SEQUENCE_METADATA);
    SameSubMessage(a, b, SEQUENCE_METADATA, WithoutFields(x, SEQUENCE_STATISTICS), WithoutFields(y, SEQUENCE_STATISTICS));
    assert PopulatedText(x, LAST_VALUE) && PopulatedText(y, LAST_VALUE);
    assert TextOf(x, LAST_VALUE) == TextOf(y, LAST_VALUE);
    WithoutFieldsDetermines(x, y, SEQUENCE_STATISTICS);
  }

  /** The statistics are all that normalization drops. */
  lemma StatisticsAreAllThatIsDropped(a: Message, b: Message)
    requires IsStoredMetadata(a) && IsStoredMetadata(b)
    ensures Normalize(a) == Normalize(b) && MetadataStatistics(a) == MetadataStatistics(b) <==> a == b
  {
    if Normalize(a) == Normalize(b) && MetadataStatistics(a) == MetadataStatistics(b) {
      NormalizedShape(a);
      NormalizedShape(b);
      if TABLE_METADATA in a.fields {
        TableDetermined(a, b);
      } else if SEQUENCE_METADATA in a.fields {
        SequenceDetermined(a, b);
      }
    }
  }

  lemma NormalizeIsIdempotent(m: Message)
    ensures Normalize(Normalize(m)) == Normalize(m)
    ensures MetadataStatistics(Normalize(m)) == Statistics(0, 0, 0, 0, [])
  {
    if HasSubMessage(m, TABLE_METADATA) {
      var table := WithoutFields(SubMessage(m, TABLE_METADATA), TABLE_STATISTICS);
      assert WithoutFields(table, TABLE_STATISTICS) == table;
      assert Normalize(Normalize(m)).fields == Normalize(m).fields;
    } else if HasSubMessage(m, SEQUENCE_METADATA) {
      var sequence := WithoutFields(SubMessage(m, SEQUENCE_METADATA), SEQUENCE_STATISTICS);
      assert WithoutFields(sequence, SEQUENCE_STATISTICS) == sequence;
      assert Normalize(Normalize(m)).fields == Normalize(m).fields;
    }
  }

  lemma WithoutFieldsKeepsType(schema: Schema, m: Message, descriptor: string, numbers: set<nat>)
    requires IsMessage(schema, m, descriptor)
    ensures IsMessage(schema, WithoutFields(m, numbers), descriptor)
  {
  }

  lemma NormalizeKeepsType(schema: Schema, m: Message, descriptor: string)
    requires IsMessage(schema, m, descriptor)
    ensures IsMessage(schema, Normalize(m), descriptor)
  {
    var normalized := Normalize(m);
    forall n | n in normalized.fields ensures HasField(schema, normalized.fields[n], schema[descriptor][n]) {
      var fd := schema[descriptor][n];
      assert HasField(schema, m.fields[n], fd);
      if HasSubMessage(m, n) {
        WithoutFieldsKeepsType(schema, SubMessage(m, n), fd.kind.descriptor, TABLE_STATISTICS);
        WithoutFieldsKeepsType(schema, SubMessage(m, n), fd.kind.descriptor, SEQUENCE_STATISTICS);
      }
    }
  }

  // ----- The fingerprint -----

  /** The bytes that are hashed; the hash itself is taken to be injective. */
  ghost function HashedBytes(m: Message): Bytes {
    AsciiBytes(FINGERPRINT_DOMAIN) + EncodeMessage(Normalize(m))
  }

  /** CalcMetaHash, up to the hash of the result. */
  method CalcHashedBytes(m: Message, ghost schema: Schema, ghost descriptor: string) returns (bytes: Bytes)
    requires IsMessage(schema, m, descriptor)
    ensures bytes == HashedBytes(m)
  {
    NormalizeKeepsType(schema, m, descriptor);
    bytes := EncodeCanonicalMessage(AsciiBytes(FINGERPRINT_DOMAIN), Normalize(m), schema, descriptor);
  }

  /** Main result: the fingerprint identifies the metadata up to statistics, and nothing more or less. */
  lemma FingerprintIdentifiesContent(schema: Schema, descriptor: string, a: Message, b: Message)
    requires IsMessage(schema, a, descriptor) && IsMessage(schema, b, descriptor)
    ensures HashedBytes(a) == HashedBytes(b) <==> Normalize(a) == Normalize(b)
    ensures IsStoredMetadata(a) && IsStoredMetadata(b) ==>
              (HashedBytes(a) == HashedBytes(b) && MetadataStatistics(a) == MetadataStatistics(b) <==> a == b)
  {
    NormalizeKeepsType(schema, a, descriptor);
    NormalizeKeepsType(schema, b, descriptor);
    var x, y := EncodeMessage(Normalize(a)), EncodeMessage(Normalize(b));
    EncodingIsInjective(schema, descriptor, Normalize(a), Normalize(b), [], []);
    assert x + [] == x && y + [] == y;
    var domain := AsciiBytes(FINGERPRINT_DOMAIN);
    assert (domain + x)[|domain|..] == x && (domain + y)[|domain|..] == y;
    if IsStoredMetadata(a) && IsStoredMetadata(b) { StatisticsAreAllThatIsDropped(a, b); }
  }

  /** What is persisted is fingerprinted as it is stored: sanitizing it again changes nothing. */
  lemma StoredFingerprintIsStable(schema: Schema, descriptor: string, m: Message)
    requires IsMessage(schema, m, descriptor)
    ensures IsMessage(schema, SanitizeMessage(m), descriptor)
    ensures HashedBytes(SanitizeMessage(SanitizeMessage(m))) == HashedBytes(SanitizeMessage(m))
    ensures NoNul(Normalize(SanitizeMessage(m)))
  {
    SanitizeKeepsType(schema, m, descriptor);
    SanitizeIsIdempotent(m);
    SanitizedHasNoNul(m);
    NormalizeKeepsClean(SanitizeMessage(m));
  }

  lemma NormalizeKeepsClean(m: Message)
    requires NoNul(m)
    ensures NoNul(Normalize(m))
  {
    var normalized := Normalize(m);
    forall n | n in normalized.fields ensures NoNulField(normalized.fields[n]) {
      assert NoNulField(m.fields[n]);
      if HasSubMessage(m, n) {
        var sub := SubMessage(m, n);
        assert NoNulValue(m.fields[n].value) && NoNul(sub);
        assert NoNul(WithoutFields(sub, TABLE_STATISTICS)) && NoNul(WithoutFields(sub, SEQUENCE_STATISTICS));
      }
    }
  }
}
