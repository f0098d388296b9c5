/**
 The encoder as it runs: it ranges over fields and map entries in whatever order the runtime yields
 them, sorts, and appends to a buffer. It always appends the one encoding of the message.
 */
module CanonicalEncoder {
  import opened Ordering
  import opened ProtoMessage
  import opened CanonicalEncoding

  method AppendUvarint(dst: Bytes, v: nat) returns (out: Bytes)
    ensures out == dst + Uvarint(v)
  {
    out := dst;
    var x := v;
    while x >= 128
      invariant out + Uvarint(x) == dst + Uvarint(v)
      decreases x
    {
      out := out + [128 + x % 128];
      x := x / 128;
    }
    out := out + [x];
  }

  method AppendLengthPrefixed(dst: Bytes, data: Bytes) returns (out: Bytes)
    ensures out == dst + LengthPrefixed(data)
  {
    out := AppendUvarint(dst, |data|);
    out := out + data;
  }

  method AppendLittleEndian(dst: Bytes, bits: nat, width: nat) returns (out: Bytes)
    ensures out == dst + LittleEndian(bits, width)
  {
    out := dst;
    var x := bits;
    for i := 0 to width
      invariant out + LittleEndian(x, width - i) == dst + LittleEndian(bits, width)
    {
      out := out + [x % 256];
      x := x / 256;
    }
  }

  /** encodeCanonicalMessage */
  method EncodeCanonicalMessage(dst: Bytes, m: Message, ghost schema: Schema, ghost descriptor: string) returns (out: Bytes)
    requires IsMessage(schema, m, descriptor)
    ensures out == dst + EncodeMessage(m)
    decreases m
  {
    var fields := SortedFields(m);
    out := AppendUvarint(dst, |fields|);
    for i := 0 to |fields|
      invariant out + EncodeFields(m, fields[i..]) == dst + EncodeMessage(m)
    {
      var number := fields[i];
      AppendFieldStep(m, fields, i, out);
      out := AppendUvarint(out, number);
      out := EncodeCanonicalField(out, m.fields[number], schema, schema[descriptor][number]);
    }
  }

  lemma AppendFieldStep(m: Message, fields: seq<nat>, i: nat, dst: Bytes)
    requires i < |fields| && forall n | n in fields :: n in m.fields
    ensures dst + EncodeFields(m, fields[i..]) ==
            dst + Uvarint(fields[i]) + EncodeField(m.fields[fields[i]]) + EncodeFields(m, fields[i + 1..])
  {
    assert fields[i..][1..] == fields[i + 1..];
  }

  /** The populated fields in ascending field-number order. */
  method SortedFields(m: Message) returns (fields: seq<nat>)
    ensures fields == SortedListing(m.fields.Keys, NumberBefore) && |fields| == |m.fields|
    ensures forall n | n in fields :: n in m.fields
  {
    var listed := Listing(m.fields.Keys);
    fields := SortFunc(listed, NumberBefore);
    NumbersAreOrdered(m.fields.Keys);
    SameElements(fields, listed);
    assert forall i, j | 0 <= i < j < |listed| :: Comparable(NumberBefore, listed[i], listed[j]);
    SortedListingIsUnique(m.fields.Keys, fields, NumberBefore);
    SortedListingIsSorted(m.fields.Keys, NumberBefore);
  }

  lemma SameElements<T>(xs: seq<T>, ys: seq<T>)
    requires multiset(xs) == multiset(ys)
    ensures forall x :: x in xs <==> x in ys
    ensures |xs| == |ys|
  {
    assert forall x :: x in xs <==> x in multiset(xs);
    assert |multiset(xs)| == |xs|;
  }

  /** encodeCanonicalField */
  method EncodeCanonicalField(dst: Bytes, field: Field, ghost schema: Schema, ghost fd: FieldDescriptor) returns (out: Bytes)
    requires HasField(schema, field, fd)
    ensures out == dst + EncodeField(field)
    decreases field
  {
    match field
    case Mapped(entries) =>
      out := EncodeCanonicalMap(dst, field, schema, fd);
    case Repeated(list) =>
      out := AppendUvarint(dst, |list|);
      for i := 0 to |list|
        invariant out + EncodeList(list[i..]) == dst + EncodeField(field)
      {
        out := EncodeCanonicalValue(out, list[i], schema, fd.kind);
        assert list[i..][1..] == list[i + 1..];
      }
    case Singular(v) =>
      out := EncodeCanonicalValue(dst, v, schema, fd.kind);
  }

  /** encodeCanonicalMap */
  method EncodeCanonicalMap(dst: Bytes, field: Field, ghost schema: Schema, ghost fd: FieldDescriptor) returns (out: Bytes)
    requires HasField(schema, field, fd) && field.Mapped?
    ensures out == dst + EncodeField(field)
    decreases field, 1
  {
    var keys := Listing(field.entries.Keys);
    var entries := CollectEntries(field, keys, schema, fd);
    entries := SortEntries(field, keys, entries, schema, fd);
    out := AppendUvarint(dst, |entries|);
    ghost var count := Uvarint(|entries|);
    assert out == dst + count;
    out := AppendAll(out, entries);
    Associative(dst, count, PrefixAll(entries));
  }

  method AppendAll(dst: Bytes, entries: seq<Bytes>) returns (out: Bytes)
    ensures out == dst + PrefixAll(entries)
  {
    out := dst;
    for i := 0 to |entries|
      invariant out + PrefixAll(entries[i..]) == dst + PrefixAll(entries)
    {
      out := AppendLengthPrefixed(out, entries[i]);
      assert entries[i..][1..] == entries[i + 1..];
    }
  }

  method CollectEntries(field: Field, keys: seq<Value>, ghost schema: Schema, ghost fd: FieldDescriptor) returns (entries: seq<Bytes>)
    requires HasField(schema, field, fd) && field.Mapped? && forall k | k in keys :: k in field.entries
    ensures EncodesEntries(field, keys, entries)
    decreases field, 0
  {
    entries := [];
    for i := 0 to |keys|
      invariant EncodesEntries(field, keys[..i], entries)
    {
      assert keys[i] in field.entries;
      var entry := EncodeCanonicalValue([], keys[i], schema, fd.key);
      entry := EncodeCanonicalValue(entry, field.entries[keys[i]], schema, fd.value);
      entries := entries + [entry];
    }
    assert keys[..|keys|] == keys;
  }

  /** Whatever order the entries were visited in, they sort to the same list. */
  method SortEntries(field: Field, ghost keys: seq<Value>, entries: seq<Bytes>, ghost schema: Schema, ghost fd: FieldDescriptor)
      returns (sorted: seq<Bytes>)
    requires HasField(schema, field, fd) && field.Mapped?
    requires NoRepeats(keys) && (forall k :: k in keys <==> k in field.entries)
    requires EncodesEntries(field, keys, entries)
    ensures sorted == SortedListing(EncodedEntries(field), BytesBefore) && |sorted| == |field.entries|
    decreases field, 0
  {
    ghost var encoded := EncodedEntries(field);
    forall a: Bytes, b: Bytes, c: Bytes
      ensures BytesBefore(a, b) ==> !BytesBefore(b, a)
      ensures !BytesBefore(a, b) && !BytesBefore(b, c) ==> !BytesBefore(a, c)
    {
      LexOrder(a, b, c);
    }
    forall i, j | 0 <= i < j < |entries| ensures Comparable(BytesBefore, entries[i], entries[j]) {
      if entries[i] == entries[j] { EntryKeyIsReadBack(schema, field, fd, keys[i], keys[j]); }
      LexOrder(entries[i], entries[j], entries[i]);
    }
    sorted := SortFunc(entries, BytesBefore);
    BytesAreOrdered(encoded);
    SameElements(sorted, entries);
    forall e ensures e in entries <==> e in encoded {
      if e in encoded {
        var k :| k in field.entries && EncodeEntry(field, k) == e;
        var i :| 0 <= i < |keys| && keys[i] == k;
        assert entries[i] == e;
      }
    }
    SortedListingIsUnique(encoded, sorted, BytesBefore);
    CountOf(keys, field.entries.Keys);
  }

  /** encodeCanonicalValue */
  method EncodeCanonicalValue(dst: Bytes, v: Value, ghost schema: Schema, ghost kind: Kind) returns (out: Bytes)
    requires HasKind(schema, v, kind)
    ensures out == dst + EncodeValue(v)
    decreases v
  {
    match v
    case BoolValue(flag) => out := dst + [if flag then 1 else 0];
    case EnumValue(n) => out := AppendUvarint(dst, ToUint64(n));
    case Int32Value(n) => out := AppendUvarint(dst, ToUint64(n));
    case Int64Value(n) => out := AppendUvarint(dst, ToUint64(n));
    case Uint32Value(n) => out := AppendUvarint(dst, n);
    case Uint64Value(n) => out := AppendUvarint(dst, n);
    case FloatValue(bits) => out := AppendLittleEndian(dst, bits, 4);
    case DoubleValue(bits) => out := AppendLittleEndian(dst, bits, 8);
    case StringValue(text) => out := AppendLengthPrefixed(dst, text);
    case BytesValue(data) => out := AppendLengthPrefixed(dst, data);
    case MessageValue(m) =>
      assert EncodeValue(v) == LengthPrefixed(EncodeMessage(m));
      var inner := EncodeCanonicalMessage([], m, schema, kind.descriptor);
      out := AppendLengthPrefixed(dst, inner);
  }
}
