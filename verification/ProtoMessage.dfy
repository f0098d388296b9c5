/**
 Protobuf messages as reflection shows them: a message is the map of its populated fields by field
 number, typed by descriptors that may refer to each other recursively.
 */
module ProtoMessage {

  type byte = x: int | 0 <= x < 256

  type Bytes = seq<byte>

  /** A value of one field element. Strings are their UTF-8 bytes and floats their bit patterns. */
  datatype Value =
    | BoolValue(flag: bool)
    | EnumValue(number: int)
    | Int32Value(int32: int)
    | Int64Value(int64: int)
    | Uint32Value(uint32: nat)
    | Uint64Value(uint64: nat)
    | FloatValue(bits32: nat)
    | DoubleValue(bits64: nat)
    | StringValue(text: Bytes)
    | BytesValue(data: Bytes)
    | MessageValue(message: Message)

  datatype Field =
    | Singular(value: Value)
    | Repeated(values: seq<Value>)
    | Mapped(entries: map<Value, Value>)

  datatype Message = Message(fields: map<nat, Field>)

  datatype Kind =
    | BoolKind | EnumKind | Int32Kind | Int64Kind | Uint32Kind | Uint64Kind | FloatKind | DoubleKind
    | StringKind | BytesKind | MessageKind(descriptor: string)

  datatype FieldDescriptor =
    | SingularField(kind: Kind)
    | ListField(kind: Kind)
    | MapField(key: Kind, value: Kind)

  /** Message descriptors by name, field descriptors by number. */
  type Schema = map<string, map<nat, FieldDescriptor>>

  const TWO_31: int := 0x8000_0000
  const TWO_32: int := 0x1_0000_0000
  const TWO_63: int := 0x8000_0000_0000_0000
  const TWO_64: int := 0x1_0000_0000_0000_0000

  ghost predicate HasKind(schema: Schema, v: Value, kind: Kind)
    decreases v
  {
    match v
    case BoolValue(_) => kind == BoolKind
    case EnumValue(n) => kind == EnumKind && -TWO_31 <= n < TWO_31
    case Int32Value(n) => kind == Int32Kind && -TWO_31 <= n < TWO_31
    case Int64Value(n) => kind == Int64Kind && -TWO_63 <= n < TWO_63
    case Uint32Value(n) => kind == Uint32Kind && n < TWO_32
    case Uint64Value(n) => kind == Uint64Kind && n < TWO_64
    case FloatValue(bits) => kind == FloatKind && bits < TWO_32
    case DoubleValue(bits) => kind == DoubleKind && bits < TWO_64
    case StringValue(_) => kind == StringKind
    case BytesValue(_) => kind == BytesKind
    case MessageValue(m) => kind.MessageKind? && IsMessage(schema, m, kind.descriptor)
  }

  ghost predicate HasField(schema: Schema, field: Field, fd: FieldDescriptor)
    decreases field
  {
    match field
    case Singular(v) => fd.SingularField? && HasKind(schema, v, fd.kind)
    case Repeated(vs) => fd.ListField? && forall v | v in vs :: HasKind(schema, v, fd.kind)
    case Mapped(entries) =>
      fd.MapField? && forall k | k in entries :: HasKind(schema, k, fd.key) && HasKind(schema, entries[k], fd.value)
  }

  ghost predicate IsMessage(schema: Schema, m: Message, descriptor: string)
    decreases m
  {
    && descriptor in schema
    && forall n | n in m.fields :: n in schema[descriptor] && HasField(schema, m.fields[n], schema[descriptor][n])
  }
}
