/**
 Replacing U+0000 in a message before it is persisted: what the result is, stated entry by entry.
 Two keys of a map may come to the same replacement; one of them has to win whatever order the map
 is visited in.
 */
module Sanitizer {
  import opened Ordering
  import opened ProtoMessage

  /** U+FFFD in UTF-8. */
  const NUL_REPLACEMENT: Bytes := [0xEF, 0xBF, 0xBD]

  function CleanText(s: Bytes): Bytes {
    if s == [] then [] else (if s[0] == 0 then NUL_REPLACEMENT else [s[0]]) + CleanText(s[1..])
  }

  function CleanKey(k: Value): Value {
    if k.StringValue? then StringValue(CleanText(k.text)) else k
  }

  /** The text a key is sorted by. */
  function KeyText(k: Value): Bytes {
    if k.StringValue? then k.text else []
  }

  predicate KeyTextBefore(a: Value, b: Value) {
    LexLess(KeyText(a), KeyText(b))
  }

  /** The entry that survives under `clean`: the one already there, else the one with the smallest key. */
  ghost predicate Wins(entries: map<Value, Value>, clean: Value, k: Value) {
    && k in entries && CleanKey(k) == clean
    && (clean in entries ==> k == clean)
    && (forall l | l in entries && CleanKey(l) == clean && clean !in entries && l != k :: KeyTextBefore(k, l))
  }

  /** Of the keys that become the same clean one, the one that wins comes first in byte order. */
  lemma WinnerIsFirst(entries: map<Value, Value>, clean: Value, k: Value, l: Value)
    requires Wins(entries, clean, k) && clean !in entries && l in entries && CleanKey(l) == clean && l != k
    requires k.StringValue? && l.StringValue?
    ensures Precedes(k.text, l.text)
  {
    LexLessExactly(k.text, l.text);
  }

  ghost function CleanKeys(entries: map<Value, Value>): set<Value> {
    set k | k in entries :: CleanKey(k)
  }

  ghost function Winner(entries: map<Value, Value>, clean: Value): (k: Value)
    requires clean in CleanKeys(entries)
    ensures k in entries
  {
    WinnerExists(entries, clean);
    var k :| Wins(entries, clean, k);
    k
  }

  ghost function SanitizeValue(v: Value): Value
    decreases v
  {
    match v
    case StringValue(s) => StringValue(CleanText(s))
    case MessageValue(m) => MessageValue(SanitizeMessage(m))
    case _ => v
  }

  ghost function SanitizeField(field: Field): Field
    decreases field
  {
    match field
    case Singular(v) => Singular(SanitizeValue(v))
    case Repeated(vs) => Repeated(seq(|vs|, i requires 0 <= i < |vs| => SanitizeValue(vs[i])))
    case Mapped(entries) =>
      Mapped(map clean | clean in CleanKeys(entries) :: SanitizeValue(entries[Winner(entries, clean)]))
  }

  ghost function SanitizeMessage(m: Message): Message
    decreases m
  {
    Message(map n | n in m.fields :: SanitizeField(m.fields[n]))
  }

  // ----- The winner of a key -----

  lemma {:induction false} CleanTextIsClean(s: Bytes)
    ensures 0 !in CleanText(s)
    ensures 0 !in s ==> CleanText(s) == s
  {
    if s != [] {
      assert s == [s[0]] + s[1..];
      CleanTextIsClean(s[1..]);
    }
  }

  /** Every U+0000 becomes one replacement, and the text around it is kept. */
  lemma {:induction false} CleanTextAround(a: Bytes, b: Bytes)
    ensures CleanText(a + [0] + b) == CleanText(a) + NUL_REPLACEMENT + CleanText(b)
  {
    if a == [] {
      assert ([0] + b)[1..] == b;
      assert a + [0] + b == [0] + b;
    } else {
      assert (a + [0] + b)[1..] == a[1..] + [0] + b;
      CleanTextAround(a[1..], b);
    }
  }

  lemma CleanKeyIsClean(k: Value)
    ensures CleanKey(CleanKey(k)) == CleanKey(k)
    ensures 0 !in KeyText(CleanKey(k))
    ensures CleanKey(k) == k <==> 0 !in KeyText(k)
  {
    if k.StringValue? {
      CleanTextIsClean(k.text);
      CleanTextIsClean(CleanText(k.text));
    }
  }

  lemma {:induction false} SmallestExists(keys: set<Value>)
    requires keys != {} && forall k | k in keys :: k.StringValue?
    ensures exists k :: IsFirst(k, keys, KeyTextBefore)
  {
    forall a: Value, b: Value, c: Value | a in keys && b in keys && c in keys
      ensures KeyTextBefore(a, b) ==> !KeyTextBefore(b, a)
      ensures a == b || KeyTextBefore(a, b) || KeyTextBefore(b, a)
      ensures KeyTextBefore(a, b) && KeyTextBefore(b, c) ==> KeyTextBefore(a, c)
    {
      LexOrder(a.text, b.text, c.text);
    }
    FirstExists(keys, KeyTextBefore);
  }

  lemma WinnerExists(entries: map<Value, Value>, clean: Value)
    requires clean in CleanKeys(entries)
    ensures exists k :: Wins(entries, clean, k)
  {
    var k0 :| k0 in entries && CleanKey(k0) == clean;
    CleanKeyIsClean(k0);
    if clean in entries {
      assert Wins(entries, clean, clean);
    } else {
      var rivals := set k | k in entries && CleanKey(k) == clean;
      assert k0 in rivals;
      forall k | k in rivals ensures k.StringValue? {
        assert k != clean;
      }
      SmallestExists(rivals);
      var k :| IsFirst(k, rivals, KeyTextBefore);
      assert Wins(entries, clean, k);
    }
  }

  /** One entry wins: the result does not depend on the order the entries are visited in. */
  lemma WinnerIsUnique(entries: map<Value, Value>, clean: Value, k: Value)
    requires Wins(entries, clean, k)
    ensures clean in CleanKeys(entries) && Winner(entries, clean) == k
  {
    WinnerExists(entries, clean);
    var w :| Wins(entries, clean, w) && w == Winner(entries, clean);
    if w != k && clean !in entries {
      assert KeyTextBefore(k, w) && KeyTextBefore(w, k);
      LexOrder(KeyText(k), KeyText(w), KeyText(k));
    }
  }

  // ----- Properties -----

  ghost predicate NoNulValue(v: Value)
    decreases v
  {
    match v
    case StringValue(s) => 0 !in s
    case MessageValue(m) => NoNul(m)
    case _ => true
  }

  ghost predicate NoNulField(field: Field)
    decreases field
  {
    match field
    case Singular(v) => NoNulValue(v)
    case Repeated(vs) => forall v | v in vs :: NoNulValue(v)
    case Mapped(entries) => forall k | k in entries :: 0 !in KeyText(k) && NoNulValue(entries[k])
  }

  ghost predicate NoNul(m: Message)
    decreases m
  {
    forall n | n in m.fields :: NoNulField(m.fields[n])
  }

  lemma {:induction false} SanitizedValueHasNoNul(v: Value)
    ensures NoNulValue(SanitizeValue(v))
    decreases v
  {
    match v
    case StringValue(s) => CleanTextIsClean(s);
    case MessageValue(m) => SanitizedHasNoNul(m);
    case _ =>
  }

  lemma {:induction false} SanitizedFieldHasNoNul(field: Field)
    ensures NoNulField(SanitizeField(field))
    decreases field
  {
    match field
    case Singular(v) => SanitizedValueHasNoNul(v);
    case Repeated(vs) =>
      forall v | v in vs ensures NoNulValue(SanitizeValue(v)) { SanitizedValueHasNoNul(v); }
    case Mapped(entries) =>
      forall clean | clean in CleanKeys(entries)
        ensures 0 !in KeyText(clean) && NoNulValue(SanitizeValue(entries[Winner(entries, clean)]))
      {
        var k :| k in entries && CleanKey(k) == clean;
        CleanKeyIsClean(k);
        SanitizedValueHasNoNul(entries[Winner(entries, clean)]);
      }
  }

  /** No string, list element, map key or map value of a sanitized message holds U+0000. */
  lemma {:induction false} SanitizedHasNoNul(m: Message)
    ensures NoNul(SanitizeMessage(m))
    decreases m
  {
    forall n | n in m.fields ensures NoNulField(SanitizeField(m.fields[n])) {
      SanitizedFieldHasNoNul(m.fields[n]);
    }
  }

  lemma {:induction false} CleanValueUnchanged(v: Value)
    requires NoNulValue(v)
    ensures SanitizeValue(v) == v
    decreases v
  {
    match v
    case StringValue(s) => CleanTextIsClean(s);
    case MessageValue(m) => CleanMessageUnchanged(m);
    case _ =>
  }

  lemma {:induction false} CleanFieldUnchanged(field: Field)
    requires NoNulField(field)
    ensures SanitizeField(field) == field
    decreases field
  {
    match field
    case Singular(v) => CleanValueUnchanged(v);
    case Repeated(vs) =>
      forall i | 0 <= i < |vs| ensures SanitizeValue(vs[i]) == vs[i] { CleanValueUnchanged(vs[i]); }
      assert SanitizeField(field).values == vs;
    case Mapped(entries) =>
      forall k | k in entries ensures CleanKey(k) == k && SanitizeValue(entries[k]) == entries[k] && Wins(entries, k, k) {
        CleanKeyIsClean(k);
        CleanValueUnchanged(entries[k]);
      }
      assert CleanKeys(entries) == entries.Keys;
      forall k | k in entries ensures Winner(entries, k) == k { WinnerIsUnique(entries, k, k); }
      assert SanitizeField(field).entries == entries;
  }

  /** A message without U+0000 is left as it is. */
  lemma {:induction false} CleanMessageUnchanged(m: Message)
    requires NoNul(m)
    ensures SanitizeMessage(m) == m
    decreases m
  {
    forall n | n in m.fields ensures SanitizeField(m.fields[n]) == m.fields[n] {
      CleanFieldUnchanged(m.fields[n]);
    }
    assert SanitizeMessage(m).fields == m.fields;
  }

  /** Sanitizing changes a message exactly when it holds a U+0000 somewhere, and twice is once. */
  lemma SanitizeIsIdempotent(m: Message)
    ensures SanitizeMessage(SanitizeMessage(m)) == SanitizeMessage(m)
    ensures SanitizeMessage(m) == m <==> NoNul(m)
  {
    SanitizedHasNoNul(m);
    CleanMessageUnchanged(SanitizeMessage(m));
    if NoNul(m) { CleanMessageUnchanged(m); }
  }

  /** Sanitizing keeps every field's type, so a sanitized message still has a fingerprint. */
  lemma {:induction false} SanitizeKeepsValueKind(schema: Schema, v: Value, kind: Kind)
    requires HasKind(schema, v, kind)
    ensures HasKind(schema, SanitizeValue(v), kind)
    decreases v
  {
    match v
    case MessageValue(m) => SanitizeKeepsType(schema, m, kind.descriptor);
    case _ =>
  }

  lemma {:induction false} SanitizeKeepsFieldType(schema: Schema, field: Field, fd: FieldDescriptor)
    requires HasField(schema, field, fd)
    ensures HasField(schema, SanitizeField(field), fd)
    decreases field
  {
    match field
    case Singular(v) => SanitizeKeepsValueKind(schema, v, fd.kind);
    case Repeated(vs) =>
      forall v | v in vs ensures HasKind(schema, SanitizeValue(v), fd.kind) { SanitizeKeepsValueKind(schema, v, fd.kind); }
    case Mapped(entries) =>
      forall clean | clean in CleanKeys(entries)
        ensures HasKind(schema, clean, fd.key) && HasKind(schema, SanitizeValue(entries[Winner(entries, clean)]), fd.value)
      {
        var k :| k in entries && CleanKey(k) == clean;
        SanitizeKeepsValueKind(schema, entries[Winner(entries, clean)], fd.value);
      }
  }

  lemma {:induction false} SanitizeKeepsType(schema: Schema, m: Message, descriptor: string)
    requires IsMessage(schema, m, descriptor)
    ensures IsMessage(schema, SanitizeMessage(m), descriptor)
    decreases m
  {
    forall n | n in m.fields ensures HasField(schema, SanitizeField(m.fields[n]), schema[descriptor][n]) {
      SanitizeKeepsFieldType(schema, m.fields[n], schema[descriptor][n]);
    }
  }
}
