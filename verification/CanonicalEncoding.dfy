/**
 The canonical encoding of a message, and a decoder for it: the encoding is self-delimiting, so two
 messages of one descriptor have the same bytes exactly when they are equal.
 */
module CanonicalEncoding {
  import opened Ordering
  import opened ProtoMessage

  // ----- Primitives -----

  /** binary.PutUvarint: seven bits per byte, least significant first, the last byte below 128. */
  function Uvarint(n: nat): Bytes {
    if n < 128 then [n] else [128 + n % 128] + Uvarint(n / 128)
  }

  function LittleEndian(n: nat, width: nat): Bytes {
    if width == 0 then [] else [n % 256] + LittleEndian(n / 256, width - 1)
  }

  function LengthPrefixed(data: Bytes): Bytes {
    Uvarint(|data|) + data
  }

  /** The conversion of a signed integer to uint64. */
  function ToUint64(n: int): nat {
    n % TWO_64
  }

  function FromUint64(n: nat): int {
    if n < TWO_63 then n else n - TWO_64
  }

  // ----- Encoding -----

  predicate NumberBefore(a: nat, b: nat) {
    a < b
  }

  predicate BytesBefore(a: Bytes, b: Bytes) {
    LexLess(a, b)
  }

  ghost function EncodeValue(v: Value): Bytes
    decreases v
  {
    match v
    case BoolValue(flag) => [if flag then 1 else 0]
    case EnumValue(n) => Uvarint(ToUint64(n))
    case Int32Value(n) => Uvarint(ToUint64(n))
    case Int64Value(n) => Uvarint(ToUint64(n))
    case Uint32Value(n) => Uvarint(n)
    case Uint64Value(n) => Uvarint(n)
    case FloatValue(bits) => LittleEndian(bits, 4)
    case DoubleValue(bits) => LittleEndian(bits, 8)
    case StringValue(text) => LengthPrefixed(text)
    case BytesValue(data) => LengthPrefixed(data)
    case MessageValue(m) => LengthPrefixed(EncodeMessage(m))
  }

  ghost function EncodeList(vs: seq<Value>): Bytes
    decreases vs
  {
    if vs == [] then [] else EncodeValue(vs[0]) + EncodeList(vs[1..])
  }

  ghost function EncodeEntry(field: Field, k: Value): Bytes
    requires field.Mapped? && k in field.entries
    decreases field, 0
  {
    EncodeValue(k) + EncodeValue(field.entries[k])
  }

  ghost function EncodedEntries(field: Field): set<Bytes>
    requires field.Mapped?
    decreases field, 1
  {
    set k | k in field.entries :: EncodeEntry(field, k)
  }

  function PrefixAll(items: seq<Bytes>): Bytes {
    if items == [] then [] else LengthPrefixed(items[0]) + PrefixAll(items[1..])
  }

  ghost function EncodeField(field: Field): Bytes
    decreases field
  {
    match field
    case Singular(v) => EncodeValue(v)
    case Repeated(vs) => Uvarint(|vs|) + EncodeList(vs)
    case Mapped(entries) => Uvarint(|entries|) + PrefixAll(SortedListing(EncodedEntries(field), BytesBefore))
  }

  ghost function EncodeFields(m: Message, numbers: seq<nat>): Bytes
    requires forall n | n in numbers :: n in m.fields
    decreases m, |numbers|
  {
    if numbers == [] then []
    else Uvarint(numbers[0]) + EncodeField(m.fields[numbers[0]]) + EncodeFields(m, numbers[1..])
  }

  ghost function EncodeMessage(m: Message): Bytes
    decreases m
  {
    SortedListingLists(m.fields.Keys, NumberBefore);
    Uvarint(|m.fields|) + EncodeFields(m, SortedListing(m.fields.Keys, NumberBefore))
  }

  // ----- Decoding -----

  datatype Parsed<+T> = Parsed(value: T, rest: Bytes)

  function ReadUvarint(b: Bytes): (r: Option<Parsed<nat>>)
    ensures r.Some? ==> |r.value.rest| < |b|
  {
    if b == [] then None
    else if b[0] < 128 then Some(Parsed(b[0], b[1..]))
    else
      match ReadUvarint(b[1..])
      case None => None
      case Some(high) => Some(Parsed(b[0] - 128 + 128 * high.value, high.rest))
  }

  function ReadLittleEndian(b: Bytes, width: nat): (r: Option<Parsed<nat>>)
    ensures r.Some? ==> |r.value.rest| <= |b|
  {
    if width == 0 then Some(Parsed(0, b))
    else if b == [] then None
    else
      match ReadLittleEndian(b[1..], width - 1)
      case None => None
      case Some(high) => Some(Parsed(b[0] + 256 * high.value, high.rest))
  }

  function ReadPrefixed(b: Bytes): (r: Option<Parsed<Bytes>>)
    ensures r.Some? ==> |r.value.rest| < |b| && |r.value.value| < |b|
  {
    match ReadUvarint(b)
    case None => None
    case Some(length) =>
      if length.value <= |length.rest|
      then Some(Parsed(length.rest[..length.value], length.rest[length.value..]))
      else None
  }

  function MapParsed<T, U>(p: Option<Parsed<T>>, f: T -> U): (r: Option<Parsed<U>>)
    ensures r.Some? <==> p.Some?
    ensures r.Some? ==> r.value == Parsed(f(p.value.value), p.value.rest)
  {
    match p
    case None => None
    case Some(parsed) => Some(Parsed(f(parsed.value), parsed.rest))
  }

  function ReadValue(schema: Schema, kind: Kind, b: Bytes): (r: Option<Parsed<Value>>)
    ensures r.Some? ==> |r.value.rest| <= |b|
    decreases |b|, 0, 0
  {
    match kind
    case BoolKind => if b == [] then None else Some(Parsed(BoolValue(b[0] != 0), b[1..]))
    case EnumKind => MapParsed(ReadUvarint(b), n => EnumValue(FromUint64(n)))
    case Int32Kind => MapParsed(ReadUvarint(b), n => Int32Value(FromUint64(n)))
    case Int64Kind => MapParsed(ReadUvarint(b), n => Int64Value(FromUint64(n)))
    case Uint32Kind => MapParsed(ReadUvarint(b), n => Uint32Value(n))
    case Uint64Kind => MapParsed(ReadUvarint(b), n => Uint64Value(n))
    case FloatKind => MapParsed(ReadLittleEndian(b, 4), n => FloatValue(n))
    case DoubleKind => MapParsed(ReadLittleEndian(b, 8), n => DoubleValue(n))
    case StringKind => MapParsed(ReadPrefixed(b), s => StringValue(s))
    case BytesKind => MapParsed(ReadPrefixed(b), s => BytesValue(s))
    case MessageKind(descriptor) =>
      match ReadPrefixed(b)
      case None => None
      case Some(inner) =>
        match ReadMessage(schema, descriptor, inner.value)
        case None => None
        case Some(m) => if m.rest == [] then Some(Parsed(MessageValue(m.value), inner.rest)) else None
  }

  function ReadList(schema: Schema, kind: Kind, count: nat, b: Bytes): (r: Option<Parsed<seq<Value>>>)
    ensures r.Some? ==> |r.value.rest| <= |b|
    decreases |b|, 1, count
  {
    if count == 0 then Some(Parsed([], b))
    else
      match ReadValue(schema, kind, b)
      case None => None
      case Some(first) =>
        match ReadList(schema, kind, count - 1, first.rest)
        case None => None
        case Some(others) => Some(Parsed([first.value] + others.value, others.rest))
  }

  function ReadEntries(schema: Schema, key: Kind, value: Kind, count: nat, b: Bytes): (r: Option<Parsed<map<Value, Value>>>)
    ensures r.Some? ==> |r.value.rest| <= |b|
    decreases |b|, 1, count
  {
    if count == 0 then Some(Parsed(map[], b))
    else
      match ReadPrefixed(b)
      case None => None
      case Some(entry) =>
        match ReadValue(schema, key, entry.value)
        case None => None
        case Some(k) =>
          match ReadValue(schema, value, k.rest)
          case None => None
          case Some(v) =>
            match ReadEntries(schema, key, value, count - 1, entry.rest)
            case None => None
            case Some(others) => Some(Parsed(others.value[k.value := v.value], others.rest))
  }

  function ReadField(schema: Schema, fd: FieldDescriptor, b: Bytes): (r: Option<Parsed<Field>>)
    ensures r.Some? ==> |r.value.rest| <= |b|
    decreases |b|, 2, 0
  {
    match fd
    case SingularField(kind) => MapParsed(ReadValue(schema, kind, b), v => Singular(v))
    case ListField(kind) =>
      (match ReadUvarint(b)
       case None => None
       case Some(count) => MapParsed(ReadList(schema, kind, count.value, count.rest), vs => Repeated(vs)))
    case MapField(key, value) =>
      match ReadUvarint(b)
      case None => None
      case Some(count) => MapParsed(ReadEntries(schema, key, value, count.value, count.rest), entries => Mapped(entries))
  }

  function ReadFields(schema: Schema, descriptor: string, count: nat, b: Bytes): (r: Option<Parsed<map<nat, Field>>>)
    ensures r.Some? ==> |r.value.rest| <= |b|
    decreases |b|, 3, count
  {
    if count == 0 then Some(Parsed(map[], b))
    else
      match ReadUvarint(b)
      case None => None
      case Some(number) =>
        if descriptor !in schema || number.value !in schema[descriptor] then None
        else
          match ReadField(schema, schema[descriptor][number.value], number.rest)
          case None => None
          case Some(field) =>
            match ReadFields(schema, descriptor, count - 1, field.rest)
            case None => None
            case Some(others) => Some(Parsed(others.value[number.value := field.value], others.rest))
  }

  function ReadMessage(schema: Schema, descriptor: string, b: Bytes): (r: Option<Parsed<Message>>)
    ensures r.Some? ==> |r.value.rest| <= |b|
    decreases |b|, 4, 0
  {
    match ReadUvarint(b)
    case None => None
    case Some(count) => MapParsed(ReadFields(schema, descriptor, count.value, count.rest), fields => Message(fields))
  }

  // ----- Round trips -----

  lemma {:induction false} UvarintRoundTrip(n: nat, rest: Bytes)
    ensures ReadUvarint(Uvarint(n) + rest) == Some(Parsed(n, rest))
  {
    if n >= 128 {
      UvarintRoundTrip(n / 128, rest);
      assert (Uvarint(n) + rest)[1..] == Uvarint(n / 128) + rest;
    }
  }

  lemma {:induction false} LittleEndianRoundTrip(n: nat, width: nat, limit: nat, rest: Bytes)
    requires n < limit && limit == Power256(width)
    ensures ReadLittleEndian(LittleEndian(n, width) + rest, width) == Some(Parsed(n, rest))
    decreases width
  {
    var bytes := LittleEndian(n, width) + rest;
    if width == 0 {
      assert bytes == rest;
    } else {
      var high := LittleEndian(n / 256, width - 1) + rest;
      assert bytes[0] == n % 256 && bytes[1..] == high;
      LittleEndianRoundTrip(n / 256, width - 1, Power256(width - 1), rest);
    }
  }

  function Power256(width: nat): nat {
    if width == 0 then 1 else 256 * Power256(width - 1)
  }

  lemma PrefixedRoundTrip(data: Bytes, rest: Bytes)
    ensures ReadPrefixed(LengthPrefixed(data) + rest) == Some(Parsed(data, rest))
  {
    Associative(Uvarint(|data|), data, rest);
    UvarintRoundTrip(|data|, data + rest);
  }

  lemma Uint64RoundTrip(n: int)
    requires -TWO_63 <= n < TWO_63
    ensures FromUint64(ToUint64(n)) == n
  {
  }

  lemma {:induction false} ValueRoundTrip(schema: Schema, v: Value, kind: Kind, rest: Bytes)
    requires HasKind(schema, v, kind)
    ensures ReadValue(schema, kind, EncodeValue(v) + rest) == Some(Parsed(v, rest))
    decreases v
  {
    match v
    case BoolValue(_) =>
    case EnumValue(n) => UvarintRoundTrip(ToUint64(n), rest); Uint64RoundTrip(n);
    case Int32Value(n) => UvarintRoundTrip(ToUint64(n), rest); Uint64RoundTrip(n);
    case Int64Value(n) => UvarintRoundTrip(ToUint64(n), rest); Uint64RoundTrip(n);
    case Uint32Value(n) => UvarintRoundTrip(n, rest);
    case Uint64Value(n) => UvarintRoundTrip(n, rest);
    case FloatValue(bits) => LittleEndianRoundTrip(bits, 4, TWO_32, rest);
    case DoubleValue(bits) => LittleEndianRoundTrip(bits, 8, TWO_64, rest);
    case StringValue(text) => PrefixedRoundTrip(text, rest);
    case BytesValue(data) => PrefixedRoundTrip(data, rest);
    case MessageValue(m) =>
      PrefixedRoundTrip(EncodeMessage(m), rest);
      MessageRoundTrip(schema, m, kind.descriptor, []);
      assert EncodeMessage(m) + [] == EncodeMessage(m);
  }

  lemma Associative(a: Bytes, b: Bytes, c: Bytes)
    ensures a + b + c == a + (b + c)
  {
  }

  lemma HeadAndTail<T>(xs: seq<T>)
    requires xs != []
    ensures xs == [xs[0]] + xs[1..]
  {
  }

  lemma EncodeListStep(vs: seq<Value>, rest: Bytes)
    requires vs != []
    ensures EncodeList(vs) + rest == EncodeValue(vs[0]) + (EncodeList(vs[1..]) + rest)
  {
    Associative(EncodeValue(vs[0]), EncodeList(vs[1..]), rest);
  }

  lemma ReadListStep(schema: Schema, kind: Kind, bytes: Bytes, v: Value, tail: Bytes, vs: seq<Value>, rest: Bytes)
    requires ReadValue(schema, kind, bytes) == Some(Parsed(v, tail))
    requires ReadList(schema, kind, |vs|, tail) == Some(Parsed(vs, rest))
    ensures ReadList(schema, kind, |vs| + 1, bytes) == Some(Parsed([v] + vs, rest))
  {
  }

  lemma {:induction false} ListRoundTrip(schema: Schema, vs: seq<Value>, kind: Kind, rest: Bytes)
    requires forall v | v in vs :: HasKind(schema, v, kind)
    ensures ReadList(schema, kind, |vs|, EncodeList(vs) + rest) == Some(Parsed(vs, rest))
    decreases vs
  {
    if vs == [] {
      assert EncodeList(vs) + rest == rest;
    } else {
      var tail := EncodeList(vs[1..]) + rest;
      HeadAndTail(vs);
      ListRoundTrip(schema, vs[1..], kind, rest);
      ValueRoundTrip(schema, vs[0], kind, tail);
      ReadListStep(schema, kind, EncodeValue(vs[0]) + tail, vs[0], tail, vs[1..], rest);
      EncodeListStep(vs, rest);
    }
  }

  lemma {:induction false} FieldRoundTrip(schema: Schema, field: Field, fd: FieldDescriptor, rest: Bytes)
    requires HasField(schema, field, fd)
    ensures ReadField(schema, fd, EncodeField(field) + rest) == Some(Parsed(field, rest))
    decreases field
  {
    match field
    case Singular(v) => ValueRoundTrip(schema, v, fd.kind, rest);
    case Repeated(vs) =>
      Associative(Uvarint(|vs|), EncodeList(vs), rest);
      UvarintRoundTrip(|vs|, EncodeList(vs) + rest);
      ListRoundTrip(schema, vs, fd.kind, rest);
    case Mapped(entries) =>
      var items := SortedListing(EncodedEntries(field), BytesBefore);
      Associative(Uvarint(|entries|), PrefixAll(items), rest);
      UvarintRoundTrip(|entries|, PrefixAll(items) + rest);
      var keys := EntryKeys(schema, field, fd);
      EntriesRoundTrip(schema, field, fd, keys, items, rest);
      RestrictedToAll(entries, keys);
  }

  /** `items` are the encodings of the entries under `keys`, in that order. */
  ghost predicate EncodesEntries(field: Field, keys: seq<Value>, items: seq<Bytes>)
    requires field.Mapped?
  {
    && |keys| == |items|
    && forall i | 0 <= i < |keys| :: keys[i] in field.entries && items[i] == EncodeEntry(field, keys[i])
  }

  function Restricted(entries: map<Value, Value>, keys: seq<Value>): map<Value, Value> {
    map k | k in entries && k in keys :: entries[k]
  }

  lemma BytesAreOrdered(items: set<Bytes>)
    ensures TotalOrderOn(items, BytesBefore)
  {
    forall a: Bytes, b: Bytes, c: Bytes
      ensures BytesBefore(a, b) ==> !BytesBefore(b, a)
      ensures a == b || BytesBefore(a, b) || BytesBefore(b, a)
      ensures BytesBefore(a, b) && BytesBefore(b, c) ==> BytesBefore(a, c)
    {
      LexOrder(a, b, c);
    }
  }

  lemma NumbersAreOrdered(numbers: set<nat>)
    ensures TotalOrderOn(numbers, NumberBefore)
  {
  }

  /** Entries of different keys have different bytes: a key is read back from its entry. */
  lemma {:induction false} EntryKeyIsReadBack(schema: Schema, field: Field, fd: FieldDescriptor, k: Value, l: Value)
    requires HasField(schema, field, fd) && field.Mapped? && k in field.entries && l in field.entries
    requires EncodeEntry(field, k) == EncodeEntry(field, l)
    ensures k == l
    decreases field, 1
  {
    EntryRoundTrip(schema, field, fd, k);
    EntryRoundTrip(schema, field, fd, l);
  }

  /** The keys in the order of their sorted entries. */
  lemma {:induction false} EntryKeys(schema: Schema, field: Field, fd: FieldDescriptor) returns (keys: seq<Value>)
    requires HasField(schema, field, fd) && field.Mapped?
    ensures EncodesEntries(field, keys, SortedListing(EncodedEntries(field), BytesBefore))
    ensures NoRepeats(keys) && |keys| == |field.entries|
    ensures forall k :: k in keys <==> k in field.entries
    decreases field, 2
  {
    var entries := field.entries;
    var encoded := EncodedEntries(field);
    var items := SortedListing(encoded, BytesBefore);
    BytesAreOrdered(encoded);
    SortedListingIsSorted(encoded, BytesBefore);
    keys := ChosenKeys(field, items);
    forall k | k in entries ensures k in keys {
      assert EncodeEntry(field, k) in encoded;
      var i :| 0 <= i < |items| && items[i] == EncodeEntry(field, k);
      EntryKeyIsReadBack(schema, field, fd, k, keys[i]);
    }
    forall i, j | 0 <= i < j < |keys| ensures keys[i] != keys[j] {
      assert BytesBefore(items[i], items[j]);
      LexOrder(items[i], items[j], items[i]);
    }
    CountOf(keys, entries.Keys);
  }

  lemma ChosenKeys(field: Field, items: seq<Bytes>) returns (keys: seq<Value>)
    requires field.Mapped? && forall i | 0 <= i < |items| :: items[i] in EncodedEntries(field)
    ensures EncodesEntries(field, keys, items)
  {
    keys := [];
    for n := 0 to |items|
      invariant EncodesEntries(field, keys, items[..n])
    {
      assert items[n] in EncodedEntries(field);
      var k :| k in field.entries && EncodeEntry(field, k) == items[n];
      keys := keys + [k];
    }
    assert items[..|items|] == items;
  }

  lemma {:induction false} CountOf<T>(xs: seq<T>, elements: set<T>)
    requires NoRepeats(xs) && forall x :: x in xs <==> x in elements
    ensures |xs| == |elements|
  {
    if xs == [] {
      assert elements == {};
    } else {
      assert xs == [xs[0]] + xs[1..];
      assert forall i | 0 < i < |xs| :: xs[i] != xs[0];
      assert xs[0] !in xs[1..];
      CountOf(xs[1..], elements - {xs[0]});
    }
  }

  /** An entry's bytes are read back as its key and its value. */
  ghost predicate ReadsEntry(schema: Schema, fd: FieldDescriptor, entry: Bytes, k: Value, v: Value)
    requires fd.MapField?
  {
    match ReadValue(schema, fd.key, entry)
    case None => false
    case Some(key) => key.value == k && ReadValue(schema, fd.value, key.rest) == Some(Parsed(v, []))
  }

  lemma {:induction false} EntryRoundTrip(schema: Schema, field: Field, fd: FieldDescriptor, k: Value)
    requires HasField(schema, field, fd) && field.Mapped? && k in field.entries
    ensures ReadsEntry(schema, fd, EncodeEntry(field, k), k, field.entries[k])
    decreases field, 0, 0
  {
    var v := field.entries[k];
    ValueRoundTrip(schema, k, fd.key, EncodeValue(v));
    ValueRoundTrip(schema, v, fd.value, []);
    assert EncodeValue(v) + [] == EncodeValue(v);
  }

  lemma ReadEntriesStep(schema: Schema, fd: FieldDescriptor, count: nat, b: Bytes, entry: Parsed<Bytes>,
                        k: Value, v: Value, others: Parsed<map<Value, Value>>)
    requires fd.MapField? && count > 0 && ReadPrefixed(b) == Some(entry) && ReadsEntry(schema, fd, entry.value, k, v)
    requires ReadEntries(schema, fd.key, fd.value, count - 1, entry.rest) == Some(others)
    ensures ReadEntries(schema, fd.key, fd.value, count, b) == Some(Parsed(others.value[k := v], others.rest))
  {
  }

  lemma RestrictedToAll(entries: map<Value, Value>, keys: seq<Value>)
    requires forall k | k in entries :: k in keys
    ensures Restricted(entries, keys) == entries
  {
  }

  lemma RestrictedStep(entries: map<Value, Value>, keys: seq<Value>)
    requires keys != [] && keys[0] in entries
    ensures Restricted(entries, keys) == Restricted(entries, keys[1..])[keys[0] := entries[keys[0]]]
  {
    assert keys == [keys[0]] + keys[1..];
  }

  lemma PrefixAllStep(items: seq<Bytes>, rest: Bytes)
    requires items != []
    ensures PrefixAll(items) + rest == LengthPrefixed(items[0]) + (PrefixAll(items[1..]) + rest)
  {
    Associative(LengthPrefixed(items[0]), PrefixAll(items[1..]), rest);
  }

  /** One more entry in front of what is already read back. */
  lemma EntryInFront(schema: Schema, fd: FieldDescriptor, count: nat, item: Bytes, tail: Bytes, k: Value, v: Value,
                     others: Parsed<map<Value, Value>>)
    requires fd.MapField? && count > 0 && ReadsEntry(schema, fd, item, k, v)
    requires ReadEntries(schema, fd.key, fd.value, count - 1, tail) == Some(others)
    ensures ReadEntries(schema, fd.key, fd.value, count, LengthPrefixed(item) + tail) == Some(Parsed(others.value[k := v], others.rest))
  {
    PrefixedRoundTrip(item, tail);
    ReadEntriesStep(schema, fd, count, LengthPrefixed(item) + tail, Parsed(item, tail), k, v, others);
  }

  lemma {:induction false} EntriesRoundTrip(schema: Schema, field: Field, fd: FieldDescriptor,
                                            keys: seq<Value>, items: seq<Bytes>, rest: Bytes)
    requires HasField(schema, field, fd) && field.Mapped?
    requires EncodesEntries(field, keys, items)
    ensures ReadEntries(schema, fd.key, fd.value, |items|, PrefixAll(items) + rest) ==
            Some(Parsed(Restricted(field.entries, keys), rest))
    decreases field, 1, |items|
  {
    if items == [] {
      assert PrefixAll(items) + rest == rest;
      assert Restricted(field.entries, keys) == map[];
    } else {
      PrefixAllStep(items, rest);
      RestrictedStep(field.entries, keys);
      EntryRoundTrip(schema, field, fd, keys[0]);
      EntriesRoundTrip(schema, field, fd, keys[1..], items[1..], rest);
      EntryInFront(schema, fd, |items|, items[0], PrefixAll(items[1..]) + rest, keys[0], field.entries[keys[0]],
        Parsed(Restricted(field.entries, keys[1..]), rest));
    }
  }

  function RestrictedFields(m: Message, numbers: seq<nat>): map<nat, Field> {
    map n | n in m.fields && n in numbers :: m.fields[n]
  }

  lemma EncodeFieldsStep(m: Message, numbers: seq<nat>, rest: Bytes)
    requires numbers != [] && forall n | n in numbers :: n in m.fields
    ensures EncodeFields(m, numbers) + rest ==
            Uvarint(numbers[0]) + (EncodeField(m.fields[numbers[0]]) + (EncodeFields(m, numbers[1..]) + rest))
  {
    Regroup(Uvarint(numbers[0]), EncodeField(m.fields[numbers[0]]), EncodeFields(m, numbers[1..]), rest);
  }

  lemma Regroup(a: Bytes, b: Bytes, c: Bytes, d: Bytes)
    ensures a + b + c + d == a + (b + (c + d))
  {
  }

  lemma RestrictedFieldsStep(m: Message, numbers: seq<nat>)
    requires numbers != [] && numbers[0] in m.fields
    ensures RestrictedFields(m, numbers) == RestrictedFields(m, numbers[1..])[numbers[0] := m.fields[numbers[0]]]
  {
    assert numbers == [numbers[0]] + numbers[1..];
  }

  lemma ReadFieldsStep(schema: Schema, descriptor: string, count: nat, b: Bytes, number: Parsed<nat>,
                       field: Parsed<Field>, others: Parsed<map<nat, Field>>)
    requires count > 0 && ReadUvarint(b) == Some(number)
    requires descriptor in schema && number.value in schema[descriptor]
    requires ReadField(schema, schema[descriptor][number.value], number.rest) == Some(field)
    requires ReadFields(schema, descriptor, count - 1, field.rest) == Some(others)
    ensures ReadFields(schema, descriptor, count, b) == Some(Parsed(others.value[number.value := field.value], others.rest))
  {
  }

  lemma {:induction false} FieldsRoundTrip(schema: Schema, descriptor: string, m: Message, numbers: seq<nat>, rest: Bytes)
    requires IsMessage(schema, m, descriptor) && forall n | n in numbers :: n in m.fields
    ensures ReadFields(schema, descriptor, |numbers|, EncodeFields(m, numbers) + rest) ==
            Some(Parsed(RestrictedFields(m, numbers), rest))
    decreases m, |numbers|
  {
    if numbers == [] {
      assert EncodeFields(m, numbers) + rest == rest;
      assert RestrictedFields(m, numbers) == map[];
    } else {
      var n, tail := numbers[0], EncodeFields(m, numbers[1..]) + rest;
      var field := m.fields[n];
      EncodeFieldsStep(m, numbers, rest);
      RestrictedFieldsStep(m, numbers);
      FieldsRoundTrip(schema, descriptor, m, numbers[1..], rest);
      FieldRoundTrip(schema, field, schema[descriptor][n], tail);
      UvarintRoundTrip(n, EncodeField(field) + tail);
      ReadFieldsStep(schema, descriptor, |numbers|, EncodeFields(m, numbers) + rest, Parsed(n, EncodeField(field) + tail),
        Parsed(field, tail), Parsed(RestrictedFields(m, numbers[1..]), rest));
    }
  }

  /** Main result: a decoder recovers the message and leaves the bytes behind it untouched. */
  lemma {:induction false} MessageRoundTrip(schema: Schema, m: Message, descriptor: string, rest: Bytes)
    requires IsMessage(schema, m, descriptor)
    ensures ReadMessage(schema, descriptor, EncodeMessage(m) + rest) == Some(Parsed(m, rest))
    decreases m
  {
    var numbers := SortedListing(m.fields.Keys, NumberBefore);
    SortedFieldNumbers(m);
    var count, fields := Uvarint(|m.fields|), EncodeFields(m, numbers);
    Associative(count, fields, rest);
    UvarintRoundTrip(|m.fields|, fields + rest);
    FieldsRoundTrip(schema, descriptor, m, numbers, rest);
    ReadMessageStep(schema, descriptor, count + (fields + rest), Parsed(|m.fields|, fields + rest), Parsed(m.fields, rest));
  }

  lemma SortedFieldNumbers(m: Message)
    ensures var numbers := SortedListing(m.fields.Keys, NumberBefore);
            && (forall n | n in numbers :: n in m.fields) && |numbers| == |m.fields| && RestrictedFields(m, numbers) == m.fields
  {
    NumbersAreOrdered(m.fields.Keys);
    SortedListingIsSorted(m.fields.Keys, NumberBefore);
  }

  lemma ReadMessageStep(schema: Schema, descriptor: string, b: Bytes, count: Parsed<nat>, fields: Parsed<map<nat, Field>>)
    requires ReadUvarint(b) == Some(count)
    requires ReadFields(schema, descriptor, count.value, count.rest) == Some(fields)
    ensures ReadMessage(schema, descriptor, b) == Some(Parsed(Message(fields.value), fields.rest))
  {
  }

  /** The encoding is injective and no encoding is a proper prefix of another. */
  lemma EncodingIsInjective(schema: Schema, descriptor: string, a: Message, b: Message, restA: Bytes, restB: Bytes)
    requires IsMessage(schema, a, descriptor) && IsMessage(schema, b, descriptor)
    ensures EncodeMessage(a) + restA == EncodeMessage(b) + restB <==> a == b && restA == restB
  {
    MessageRoundTrip(schema, a, descriptor, restA);
    MessageRoundTrip(schema, b, descriptor, restB);
  }
}
