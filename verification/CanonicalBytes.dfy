/**
 The canonical bytes themselves, which a stored fingerprint depends on: a decoder that forgives an order
 or a longer varint would not notice another encoding.
 */
module CanonicalBytes {
  import opened Ordering
  import opened ProtoMessage
  import opened CanonicalEncoding

  // ----- Order -----

  ghost predicate Ascends(numbers: seq<nat>) {
    forall i, j | 0 <= i < j < |numbers| :: numbers[i] < numbers[j]
  }

  /** Fields are encoded by ascending number. */
  lemma FieldsAscend(m: Message, numbers: seq<nat>)
    requires Ascends(numbers) && forall n :: n in numbers <==> n in m.fields
    ensures |numbers| == |m.fields| && EncodeMessage(m) == Uvarint(|numbers|) + EncodeFields(m, numbers)
  {
    NumbersAreOrdered(m.fields.Keys);
    SortedListingIsUnique(m.fields.Keys, numbers, NumberBefore);
    SortedListingIsSorted(m.fields.Keys, NumberBefore);
    assert |m.fields| == |m.fields.Keys|;
  }

  /** Map entries are encoded by ascending bytes. */
  lemma EntriesAscend(field: Field, items: seq<Bytes>)
    requires field.Mapped? && (forall i, j | 0 <= i < j < |items| :: Precedes(items[i], items[j]))
    requires forall item :: item in items <==> exists k :: k in field.entries && item == EncodeEntry(field, k)
    ensures EncodeField(field) == Uvarint(|field.entries|) + PrefixAll(items)
  {
    forall i, j | 0 <= i < j < |items| ensures BytesBefore(items[i], items[j]) {
      LexLessExactly(items[i], items[j]);
    }
    forall item ensures item in items <==> item in EncodedEntries(field) {
    }
    BytesAreOrdered(EncodedEntries(field));
    SortedListingIsUnique(EncodedEntries(field), items, BytesBefore);
  }

  // ----- Numbers -----

  /** All bytes of a varint but the last announce another one, and the last is zero only for zero. */
  lemma {:induction false} UvarintIsMinimal(n: nat)
    ensures var bytes := Uvarint(n);
            && |bytes| >= 1 && bytes[|bytes| - 1] < 128 && (bytes[|bytes| - 1] == 0 ==> n == 0 && |bytes| == 1)
            && forall i | 0 <= i < |bytes| - 1 :: bytes[i] >= 128
    decreases n
  {
    if n >= 128 {
      UvarintIsMinimal(n / 128);
    }
  }

  /** A negative number is that far below two to the 64th. */
  lemma SignedAsUint64(n: int)
    requires -0x8000_0000_0000_0000 <= n < 0x8000_0000_0000_0000
    ensures ToUint64(n) == if n < 0 then 0x1_0000_0000_0000_0000 + n else n
  {
  }

  lemma ScalarBytes(n: int, u: nat, flag: bool, data: Bytes)
    ensures EncodeValue(BoolValue(flag)) == if flag then [1] else [0]
    ensures EncodeValue(EnumValue(n)) == EncodeValue(Int32Value(n)) == EncodeValue(Int64Value(n)) == Uvarint(ToUint64(n))
    ensures EncodeValue(Uint32Value(u)) == EncodeValue(Uint64Value(u)) == Uvarint(u)
    ensures EncodeValue(StringValue(data)) == EncodeValue(BytesValue(data)) == Uvarint(|data|) + data
    ensures |EncodeValue(FloatValue(u))| == 4 && |EncodeValue(DoubleValue(u))| == 8
  {
    LittleEndianWidth(u, 4);
    LittleEndianWidth(u, 8);
  }

  lemma {:induction false} LittleEndianWidth(n: nat, width: nat)
    ensures |LittleEndian(n, width)| == width
  {
    if width > 0 { LittleEndianWidth(n / 256, width - 1); }
  }

  // ----- For instance -----

  /** A text in field 1 and a flag in field 2. */
  lemma TwoFields(m: Message, character: byte)
    requires m == Message(map[1 := Singular(StringValue([character])), 2 := Singular(BoolValue(true))])
    ensures EncodeMessage(m) == [2, 1, 1, character, 2, 1]
  {
    var numbers: seq<nat> := [1, 2];
    FieldsAscend(m, numbers);
    assert numbers[1..] == [2] && numbers[1..][1..] == [];
    assert EncodeField(m.fields[1]) == [1, character];
    assert EncodeField(m.fields[2]) == [1];
    assert EncodeFields(m, numbers[1..]) == [2, 1];
  }
}
