/**
 The sanitizer as it runs: fields and entries are visited in any order, and the changes to a map are
 collected, sorted by the old key and applied one by one.
 */
module SanitizerRun {
  import opened Ordering
  import opened ProtoMessage
  import opened Sanitizer

  datatype Replacement = Replacement(oldKey: Value, newKey: Value, value: Value, keyChanged: bool)

  /** strings.ReplaceAll(s, U+0000, U+FFFD) */
  method ReplaceNul(s: Bytes) returns (clean: Bytes)
    ensures clean == CleanText(s)
  {
    clean := [];
    for i := 0 to |s|
      invariant clean + CleanText(s[i..]) == CleanText(s)
    {
      clean := clean + (if s[i] == 0 then NUL_REPLACEMENT else [s[i]]);
      assert s[i..][1..] == s[i + 1..];
    }
  }

  /** sanitizeProtoStrings */
  method SanitizeProtoStrings(m: Message) returns (out: Message)
    ensures out == SanitizeMessage(m)
    decreases m
  {
    var numbers := Listing(m.fields.Keys);
    var fields := m.fields;
    for i := 0 to |numbers|
      invariant FieldsSanitized(m, numbers, i, fields)
    {
      FieldsSanitizedStep(m, numbers, i, fields);
      assert numbers[i] in m.fields;
      var field := SanitizeProtoField(m.fields[numbers[i]]);
      fields := fields[numbers[i] := field];
    }
    out := Message(fields);
  }

  /** The first `n` visited fields are sanitized, the others are as they were. */
  ghost predicate FieldsSanitized(m: Message, numbers: seq<nat>, n: nat, fields: map<nat, Field>)
    requires n <= |numbers|
  {
    && fields.Keys == m.fields.Keys
    && forall k | k in fields :: fields[k] == if k in numbers[..n] then SanitizeField(m.fields[k]) else m.fields[k]
  }

  lemma FieldsSanitizedStep(m: Message, numbers: seq<nat>, n: nat, fields: map<nat, Field>)
    requires n < |numbers| && FieldsSanitized(m, numbers, n, fields)
    ensures numbers[n] in m.fields ==>
              FieldsSanitized(m, numbers, n + 1, fields[numbers[n] := SanitizeField(m.fields[numbers[n]])])
  {
    assert numbers[..n + 1] == numbers[..n] + [numbers[n]];
  }

  method SanitizeProtoField(field: Field) returns (out: Field)
    ensures out == SanitizeField(field)
    decreases field
  {
    match field
    case Repeated(vs) =>
      var list := vs;
      for i := 0 to |vs|
        invariant |list| == |vs|
        invariant forall j | 0 <= j < |vs| :: list[j] == if j < i then SanitizeValue(vs[j]) else vs[j]
      {
        var v := SanitizeProtoValue(vs[i]);
        list := list[i := v];
      }
      out := Repeated(list);
    case Mapped(entries) =>
      var sanitized := SanitizeProtoMap(field);
      out := Mapped(sanitized);
    case Singular(v) =>
      var s := SanitizeProtoValue(v);
      out := Singular(s);
  }

  method SanitizeProtoValue(v: Value) returns (out: Value)
    ensures out == SanitizeValue(v)
    decreases v
  {
    match v
    case StringValue(text) =>
      var clean := ReplaceNul(text);
      out := StringValue(clean);
    case MessageValue(m) =>
      var message := SanitizeProtoStrings(m);
      out := MessageValue(message);
    case _ =>
      out := v;
  }

  // ----- Maps -----

  /** The map once the message values of the visited keys are sanitized in place. */
  ghost predicate MessagesSanitizedIn(entries: map<Value, Value>, visited: set<Value>, base: map<Value, Value>) {
    && base.Keys == entries.Keys
    && forall k | k in entries ::
         base[k] == if k in visited && entries[k].MessageValue? then SanitizeValue(entries[k]) else entries[k]
  }

  ghost predicate MessagesSanitized(entries: map<Value, Value>, base: map<Value, Value>) {
    MessagesSanitizedIn(entries, entries.Keys, base)
  }

  lemma MessagesSanitizedStep(entries: map<Value, Value>, visited: set<Value>, base: map<Value, Value>, k: Value)
    requires MessagesSanitizedIn(entries, visited, base) && k in entries
    ensures entries[k].MessageValue? ==>
              MessagesSanitizedIn(entries, visited + {k}, base[k := MessageValue(SanitizeMessage(entries[k].message))])
    ensures !entries[k].MessageValue? ==> MessagesSanitizedIn(entries, visited + {k}, base)
  {
  }

  /** What the collecting pass records for one entry. */
  ghost predicate Records(entries: map<Value, Value>, r: Replacement) {
    && r.oldKey in entries
    && r.newKey == CleanKey(r.oldKey)
    && r.value == SanitizeValue(entries[r.oldKey])
    && r.keyChanged == (r.newKey != r.oldKey)
  }

  ghost predicate NeedsReplacement(entries: map<Value, Value>, base: map<Value, Value>, k: Value)
    requires k in entries && k in base
  {
    CleanKey(k) != k || base[k] != SanitizeValue(entries[k])
  }

  ghost predicate Recorded(rs: seq<Replacement>, k: Value) {
    exists i :: 0 <= i < |rs| && rs[i].oldKey == k
  }

  /** One replacement for every visited entry that needs one. */
  ghost predicate Collected(entries: map<Value, Value>, base: map<Value, Value>, visited: set<Value>, rs: seq<Replacement>)
    requires MessagesSanitized(entries, base)
  {
    && (forall i | 0 <= i < |rs| :: Records(entries, rs[i]) && rs[i].oldKey in visited)
    && (forall i, j | 0 <= i < j < |rs| :: rs[i].oldKey != rs[j].oldKey)
    && (forall k | k in visited && k in entries && NeedsReplacement(entries, base, k) :: Recorded(rs, k))
  }

  predicate OldKeyBefore(a: Replacement, b: Replacement) {
    KeyTextBefore(a.oldKey, b.oldKey)
  }

  /** What the map holds under `c` after the replacements of the `done` keys, in ascending order of the old keys. */
  ghost predicate ReplacedAt(entries: map<Value, Value>, base: map<Value, Value>, done: set<Value>, out: map<Value, Value>, c: Value)
    requires MessagesSanitized(entries, base)
  {
    if c in entries then
      if CleanKey(c) == c then c in out && out[c] == (if c in done then SanitizeValue(entries[c]) else base[c])
      else c in out <==> c !in done
    else if c in CleanKeys(entries) then
      && (c in out <==> Winner(entries, c) in done)
      && (c in out ==> out[c] == SanitizeValue(entries[Winner(entries, c)]))
    else c !in out
  }

  ghost predicate Replaced(entries: map<Value, Value>, base: map<Value, Value>, done: set<Value>, out: map<Value, Value>)
    requires MessagesSanitized(entries, base)
  {
    forall c :: ReplacedAt(entries, base, done, out, c)
  }

  function ReplaceOne(m: map<Value, Value>, r: Replacement): map<Value, Value> {
    if !r.keyChanged then m[r.newKey := r.value]
    else if r.newKey in m - {r.oldKey} then m - {r.oldKey}
    else (m - {r.oldKey})[r.newKey := r.value]
  }

  /** The keys before `k` that come to the same replacement are done before `k` is. */
  ghost predicate InOrder(entries: map<Value, Value>, done: set<Value>, k: Value) {
    forall l | l in entries && CleanKey(l) != l && KeyTextBefore(l, k) :: l in done
  }

  lemma ReplaceOneAt(m: map<Value, Value>, r: Replacement, c: Value)
    requires r.keyChanged == (r.newKey != r.oldKey)
    ensures c == r.newKey ==> c in ReplaceOne(m, r)
    ensures c == r.newKey ==> ReplaceOne(m, r)[c] == if r.keyChanged && c in m then m[c] else r.value
    ensures c == r.oldKey && r.keyChanged ==> c !in ReplaceOne(m, r)
    ensures c != r.newKey && c != r.oldKey ==> (c in ReplaceOne(m, r) <==> c in m) && (c in m ==> ReplaceOne(m, r)[c] == m[c])
  {
  }

  lemma ReplacedOneAt(entries: map<Value, Value>, base: map<Value, Value>, done: set<Value>, out: map<Value, Value>, r: Replacement, c: Value)
    requires MessagesSanitized(entries, base) && ReplacedAt(entries, base, done, out, c)
    requires Records(entries, r) && r.oldKey !in done && InOrder(entries, done, r.oldKey)
    ensures ReplacedAt(entries, base, done + {r.oldKey}, ReplaceOne(out, r), c)
  {
    CleanKeyIsClean(r.oldKey);
    ReplaceOneAt(out, r, c);
    if c in CleanKeys(entries) && c !in entries {
      WinnerOf(entries, c);
      var w := Winner(entries, c);
      if c == r.newKey && w != r.oldKey {
        assert KeyTextBefore(w, r.oldKey);
      }
    } else if c !in entries {
      assert c != r.newKey;
    }
  }

  lemma ReplaceOneStep(entries: map<Value, Value>, base: map<Value, Value>, done: set<Value>, out: map<Value, Value>, r: Replacement)
    requires MessagesSanitized(entries, base) && Replaced(entries, base, done, out)
    requires Records(entries, r) && r.oldKey !in done && InOrder(entries, done, r.oldKey)
    ensures Replaced(entries, base, done + {r.oldKey}, ReplaceOne(out, r))
  {
    forall c ensures ReplacedAt(entries, base, done + {r.oldKey}, ReplaceOne(out, r), c) {
      ReplacedOneAt(entries, base, done, out, r, c);
    }
  }

  lemma WinnerOf(entries: map<Value, Value>, clean: Value)
    requires clean in CleanKeys(entries)
    ensures Wins(entries, clean, Winner(entries, clean))
  {
    WinnerExists(entries, clean);
  }

  lemma AllReplacedAt(entries: map<Value, Value>, base: map<Value, Value>, done: set<Value>, out: map<Value, Value>, c: Value)
    requires MessagesSanitized(entries, base) && ReplacedAt(entries, base, done, out, c)
    requires forall k | k in entries && NeedsReplacement(entries, base, k) :: k in done
    ensures c in out <==> c in CleanKeys(entries)
    ensures c in out ==> out[c] == SanitizeValue(entries[Winner(entries, c)])
  {
    if c in CleanKeys(entries) {
      WinnerOf(entries, c);
      assert c !in entries ==> NeedsReplacement(entries, base, Winner(entries, c));
      CleanKeyIsClean(Winner(entries, c));
    } else if c in entries {
      assert CleanKey(c) != c;
    }
  }

  lemma AllReplaced(entries: map<Value, Value>, base: map<Value, Value>, done: set<Value>, out: map<Value, Value>)
    requires MessagesSanitized(entries, base) && Replaced(entries, base, done, out)
    requires forall k | k in entries && NeedsReplacement(entries, base, k) :: k in done
    ensures Mapped(out) == SanitizeField(Mapped(entries))
  {
    forall c
      ensures c in out <==> c in CleanKeys(entries)
      ensures c in out ==> out[c] == SanitizeValue(entries[Winner(entries, c)])
    {
      AllReplacedAt(entries, base, done, out, c);
    }
    assert out == SanitizeField(Mapped(entries)).entries;
  }

  method SanitizeMessages(field: Field) returns (base: map<Value, Value>)
    requires field.Mapped?
    ensures MessagesSanitized(field.entries, base)
    decreases field, 0
  {
    var entries := field.entries;
    var keys := Listing(entries.Keys);
    base := entries;
    for i := 0 to |keys|
      invariant MessagesSanitizedIn(entries, Visited(keys, i), base)
    {
      var k := keys[i];
      assert k in entries;
      VisitedStep(keys, i);
      MessagesSanitizedStep(entries, Visited(keys, i), base, k);
      if entries[k].MessageValue? {
        var message := SanitizeProtoStrings(entries[k].message);
        base := base[k := MessageValue(message)];
      }
    }
    AllVisited(keys, entries.Keys);
  }

  method CollectReplacements(entries: map<Value, Value>, base: map<Value, Value>, keys: seq<Value>) returns (rs: seq<Replacement>)
    requires MessagesSanitized(entries, base)
    requires NoRepeats(keys) && forall k :: k in keys <==> k in base
    ensures Collected(entries, base, entries.Keys, rs)
  {
    rs := [];
    for i := 0 to |keys|
      invariant Collected(entries, base, Visited(keys, i), rs)
    {
      var k := keys[i];
      assert k in base;
      var newKey, value := k, base[k];
      if k.StringValue? {
        var clean := ReplaceNul(k.text);
        newKey := StringValue(clean);
      }
      if base[k].StringValue? {
        var clean := ReplaceNul(base[k].text);
        value := StringValue(clean);
      }
      VisitedStep(keys, i);
      CollectedStep(entries, base, Visited(keys, i), rs, Replacement(k, newKey, value, newKey != k));
      if newKey != k || value != base[k] {
        rs := rs + [Replacement(k, newKey, value, newKey != k)];
      }
    }
    AllVisited(keys, entries.Keys);
  }

  ghost function Visited(keys: seq<Value>, n: nat): set<Value>
    requires n <= |keys|
  {
    set i | 0 <= i < n :: keys[i]
  }

  lemma VisitedStep(keys: seq<Value>, i: nat)
    requires i < |keys|
    ensures Visited(keys, i + 1) == Visited(keys, i) + {keys[i]}
    ensures NoRepeats(keys) ==> keys[i] !in Visited(keys, i)
  {
  }

  lemma AllVisited(keys: seq<Value>, elements: set<Value>)
    requires forall k :: k in keys <==> k in elements
    ensures Visited(keys, |keys|) == elements
  {
    forall k | k in elements ensures k in Visited(keys, |keys|) {
      assert k in keys;
    }
    forall k | k in Visited(keys, |keys|) ensures k in elements {
      assert k in keys;
    }
  }

  lemma CollectedStep(entries: map<Value, Value>, base: map<Value, Value>, visited: set<Value>, rs: seq<Replacement>, r: Replacement)
    requires MessagesSanitized(entries, base) && Collected(entries, base, visited, rs)
    requires Records(entries, r) && r.oldKey !in visited
    ensures NeedsReplacement(entries, base, r.oldKey) ==> Collected(entries, base, visited + {r.oldKey}, rs + [r])
    ensures !NeedsReplacement(entries, base, r.oldKey) ==> Collected(entries, base, visited + {r.oldKey}, rs)
  {
    var longer := rs + [r];
    assert forall i | 0 <= i < |rs| :: longer[i] == rs[i];
    assert longer[|rs|] == r;
    forall k | Recorded(rs, k) || k == r.oldKey ensures Recorded(longer, k) {
      if k != r.oldKey {
        var i :| 0 <= i < |rs| && rs[i].oldKey == k;
        assert longer[i].oldKey == k;
      }
    }
  }

  lemma OldKeyOrder()
    ensures StrictWeakOrder(OldKeyBefore)
  {
    forall a, b, c
      ensures OldKeyBefore(a, b) ==> !OldKeyBefore(b, a)
      ensures !OldKeyBefore(a, b) && !OldKeyBefore(b, c) ==> !OldKeyBefore(a, c)
    {
      LexOrder(KeyText(a.oldKey), KeyText(b.oldKey), KeyText(c.oldKey));
    }
  }

  /** The replacements of one map, sorted. */
  ghost predicate Ready(entries: map<Value, Value>, base: map<Value, Value>, rs: seq<Replacement>)
    requires MessagesSanitized(entries, base)
  {
    Collected(entries, base, entries.Keys, rs) && SortedBy(OldKeyBefore, rs)
  }

  lemma SortedStillCollected(entries: map<Value, Value>, base: map<Value, Value>, rs: seq<Replacement>, sorted: seq<Replacement>)
    requires MessagesSanitized(entries, base) && Collected(entries, base, entries.Keys, rs)
    requires multiset(rs) == multiset(sorted) && SortedBy(OldKeyBefore, sorted)
    ensures Ready(entries, base, sorted)
  {
    forall i | 0 <= i < |sorted| ensures Records(entries, sorted[i]) {
      assert sorted[i] in multiset(sorted);
      assert sorted[i] in rs;
    }
    forall i, j | 0 <= i < j < |sorted| ensures sorted[i].oldKey != sorted[j].oldKey {
      if sorted[i].oldKey == sorted[j].oldKey {
        assert sorted[i] == sorted[j];
        Twice(sorted, i, j);
        var x, y := TwiceIn(rs, sorted[i]);
      }
    }
    forall k | k in entries && NeedsReplacement(entries, base, k) ensures Recorded(sorted, k) {
      assert Recorded(rs, k);
      var i :| 0 <= i < |rs| && rs[i].oldKey == k;
      assert rs[i] in multiset(sorted);
      var j :| 0 <= j < |sorted| && sorted[j] == rs[i];
    }
  }

  lemma Twice<T>(xs: seq<T>, i: nat, j: nat)
    requires i < j < |xs| && xs[i] == xs[j]
    ensures multiset(xs)[xs[i]] >= 2
  {
    assert xs == xs[..j] + [xs[j]] + xs[j + 1..];
    assert xs[i] in xs[..j];
  }

  lemma {:induction false} TwiceIn<T>(xs: seq<T>, x: T) returns (i: nat, j: nat)
    requires multiset(xs)[x] >= 2
    ensures i < j < |xs| && xs[i] == xs[j] == x
  {
    var last := |xs| - 1;
    assert xs == xs[..last] + [xs[last]];
    if xs[last] == x {
      assert x in multiset(xs[..last]);
      i :| 0 <= i < last && xs[i] == x;
      j := last;
    } else {
      i, j := TwiceIn(xs[..last], x);
    }
  }

  ghost function OldKeys(rs: seq<Replacement>, n: nat): set<Value>
    requires n <= |rs|
  {
    set i | 0 <= i < n :: rs[i].oldKey
  }

  lemma ReplacesInOrder(entries: map<Value, Value>, base: map<Value, Value>, rs: seq<Replacement>, i: nat)
    requires MessagesSanitized(entries, base) && Ready(entries, base, rs) && i < |rs|
    ensures InOrder(entries, OldKeys(rs, i), rs[i].oldKey)
  {
    forall l | l in entries && CleanKey(l) != l && KeyTextBefore(l, rs[i].oldKey) ensures l in OldKeys(rs, i) {
      assert NeedsReplacement(entries, base, l);
      var j :| 0 <= j < |rs| && rs[j].oldKey == l;
      assert OldKeyBefore(rs[j], rs[i]);
      LexOrder(KeyText(l), KeyText(rs[i].oldKey), KeyText(l));
      assert j < i;
    }
  }

  lemma OldKeysStep(rs: seq<Replacement>, i: nat)
    requires i < |rs|
    ensures OldKeys(rs, i + 1) == OldKeys(rs, i) + {rs[i].oldKey}
    ensures (forall j | 0 <= j < i :: rs[j].oldKey != rs[i].oldKey) ==> rs[i].oldKey !in OldKeys(rs, i)
  {
  }

  /** Applies the sorted replacements: the old key is cleared, and a key already present is kept. */
  method ApplyReplacements(entries: map<Value, Value>, base: map<Value, Value>, rs: seq<Replacement>) returns (out: map<Value, Value>)
    requires MessagesSanitized(entries, base) && Ready(entries, base, rs)
    ensures Mapped(out) == SanitizeField(Mapped(entries))
  {
    out := base;
    for i := 0 to |rs|
      invariant Replaced(entries, base, OldKeys(rs, i), out)
    {
      var r := rs[i];
      ReplacesInOrder(entries, base, rs, i);
      OldKeysStep(rs, i);
      ReplaceOneStep(entries, base, OldKeys(rs, i), out, r);
      if r.keyChanged {
        out := out - {r.oldKey};
        if r.newKey in out {
          continue;
        }
      }
      out := out[r.newKey := r.value];
    }
    forall k | k in entries && NeedsReplacement(entries, base, k) ensures k in OldKeys(rs, |rs|) {
      assert Recorded(rs, k);
    }
    AllReplaced(entries, base, OldKeys(rs, |rs|), out);
  }

  /** sanitizeProtoMap */
  method SanitizeProtoMap(field: Field) returns (out: map<Value, Value>)
    requires field.Mapped?
    ensures Mapped(out) == SanitizeField(field)
    decreases field, 1
  {
    var entries := field.entries;
    var base := SanitizeMessages(field);
    var keys := Listing(base.Keys);
    var replacements := CollectReplacements(entries, base, keys);
    OldKeyOrder();
    var sorted := SortFunc(replacements, OldKeyBefore);
    SortedStillCollected(entries, base, replacements, sorted);
    out := ApplyReplacements(entries, base, sorted);
  }
}
