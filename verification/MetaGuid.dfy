/**
 Meta GUIDs: escaped segments joined by a separator. Building and splitting are inverse, and the
 subtree condition of the registry's queries accepts exactly the descendants of an object.
 */
module MetaGuid {
  import opened Ordering

  const SEPARATOR: char := ';'

  // ----- Library functions on strings -----

  /** strings.ReplaceAll with a non-empty pattern. */
  function ReplaceAll(s: string, pattern: string, replacement: string): string
    requires pattern != ""
    decreases |s|
  {
    if |s| < |pattern| then s
    else if s[..|pattern|] == pattern then replacement + ReplaceAll(s[|pattern|..], pattern, replacement)
    else [s[0]] + ReplaceAll(s[1..], pattern, replacement)
  }

  /** strings.Split by the separator: always at least one segment. */
  function Split(s: string): (parts: seq<string>)
    ensures |parts| >= 1
  {
    if s == "" then [""]
    else if s[0] == SEPARATOR then [""] + Split(s[1..])
    else
      var rest := Split(s[1..]);
      [[s[0]] + rest[0]] + rest[1..]
  }

  /** strings.Join with the separator. */
  function Join(parts: seq<string>): string {
    if |parts| == 0 then ""
    else if |parts| == 1 then parts[0]
    else parts[0] + [SEPARATOR] + Join(parts[1..])
  }

  /** strings.LastIndex of the separator, or -1. */
  function LastIndex(s: string): (i: int)
    ensures -1 <= i < |s|
  {
    if s == "" then -1
    else if s[|s| - 1] == SEPARATOR then |s| - 1
    else LastIndex(s[..|s| - 1])
  }

  // ----- Segments -----

  function EscapeGUIDPart(part: string): string {
    ReplaceAll(ReplaceAll(part, "%", "%25"), ";", "%3B")
  }

  function UnescapeGUIDPart(part: string): string {
    ReplaceAll(ReplaceAll(part, "%3B", ";"), "%25", "%")
  }

  function EscapedParts(parts: seq<string>): seq<string> {
    seq(|parts|, i requires 0 <= i < |parts| => EscapeGUIDPart(parts[i]))
  }

  function UnescapedParts(parts: seq<string>): seq<string> {
    seq(|parts|, i requires 0 <= i < |parts| => UnescapeGUIDPart(parts[i]))
  }

  function MetaGUID(parts: seq<string>): string {
    Join(EscapedParts(parts))
  }

  function Segments(guid: string): seq<string> {
    UnescapedParts(Split(guid))
  }

  method BuildMetaGUID(parts: seq<string>) returns (guid: string)
    ensures guid == MetaGUID(parts)
  {
    var escaped: seq<string> := [];
    for i := 0 to |parts|
      invariant |escaped| == i && forall j | 0 <= j < i :: escaped[j] == EscapeGUIDPart(parts[j])
    {
      escaped := escaped + [EscapeGUIDPart(parts[i])];
    }
    assert escaped == EscapedParts(parts);
    guid := Join(escaped);
  }

  method SplitMetaGUID(guid: string) returns (parts: seq<string>)
    ensures parts == Segments(guid)
  {
    var raw := Split(guid);
    parts := raw;
    for i := 0 to |parts|
      invariant |parts| == |raw|
      invariant forall j | 0 <= j < |raw| :: parts[j] == if j < i then UnescapeGUIDPart(raw[j]) else raw[j]
    {
      parts := parts[i := UnescapeGUIDPart(parts[i])];
    }
    assert parts == Segments(guid);
  }

  function GUIDPrefix(guid: string): string {
    var index := LastIndex(guid);
    if index == -1 then "" else guid[..index]
  }

  /** GetInstanceFromGUID */
  function InstanceOf(guid: string): Option<string> {
    var raw := Split(guid);
    if |raw| == 1 then None else Some(UnescapeGUIDPart(raw[0]))
  }

  // ----- Escaping is undone -----

  function EscapeChar(c: char): string {
    if c == '%' then "%25" else if c == SEPARATOR then "%3B" else [c]
  }

  function EscapeChars(part: string): string {
    if part == "" then "" else EscapeChar(part[0]) + EscapeChars(part[1..])
  }

  function EscapePercents(part: string): string {
    if part == "" then "" else (if part[0] == '%' then "%25" else [part[0]]) + EscapePercents(part[1..])
  }

  lemma {:induction false} PercentsEscaped(part: string)
    ensures ReplaceAll(part, "%", "%25") == EscapePercents(part)
  {
    if part != "" {
      PercentsEscaped(part[1..]);
      assert part == [part[0]] + part[1..];
      if part[0] == '%' {
        assert part == "%" + part[1..];
      } else {
      }
    }
  }

  lemma {:induction false} SeparatorsEscaped(part: string)
    ensures ReplaceAll(EscapePercents(part), ";", "%3B") == EscapeChars(part)
  {
    if part != "" {
      var rest := EscapePercents(part[1..]);
      SeparatorsEscaped(part[1..]);
      if part[0] == '%' {
        KeepsEscapedPercent(rest, ";", "%3B");
      } else if part[0] == SEPARATOR {
      } else {
      }
    }
  }

  /** A replacement passes over two characters neither of which starts its pattern. */
  lemma KeepsTwo(a: char, b: char, rest: string, pattern: string, replacement: string)
    requires pattern != "" && a != pattern[0] && b != pattern[0]
    ensures ReplaceAll([a, b] + rest, pattern, replacement) == [a, b] + ReplaceAll(rest, pattern, replacement)
  {
    var result := ReplaceAll(rest, pattern, replacement);
    assert [a, b] + rest == [a] + ([b] + rest);
    assert [a] + ([b] + result) == [a, b] + result;
  }

  lemma KeepsEscapedPercent(rest: string, pattern: string, replacement: string)
    requires pattern != "" && pattern[0] !in "25" && (pattern[0] == '%' ==> |pattern| >= 3 && pattern[1] != '2')
    ensures ReplaceAll("%25" + rest, pattern, replacement) == "%25" + ReplaceAll(rest, pattern, replacement)
  {
    var whole, tail := "%25" + rest, ['2', '5'] + rest;
    var result := ReplaceAll(rest, pattern, replacement);
    assert whole[1..] == tail;
    KeepsTwo('2', '5', rest, pattern, replacement);
    if |whole| >= |pattern| {
      assert whole[..|pattern|] != pattern by {
        if pattern[0] == '%' { assert whole[..|pattern|][1] == '2'; } else { assert whole[..|pattern|][0] == '%'; }
      }
      assert ['%'] + (['2', '5'] + result) == "%25" + result;
    } else {
      assert result == rest;
    }
  }

  lemma EscapeIsCharwise(part: string)
    ensures EscapeGUIDPart(part) == EscapeChars(part)
  {
    PercentsEscaped(part);
    SeparatorsEscaped(part);
  }

  /** A character that does not start the pattern is left alone. */
  lemma KeepsOther(c: char, rest: string, pattern: string, replacement: string)
    requires pattern != "" && pattern[0] != c
    ensures ReplaceAll([c] + rest, pattern, replacement) == [c] + ReplaceAll(rest, pattern, replacement)
  {
    var whole := [c] + rest;
    assert whole[0] == c && whole[1..] == rest;
    if |whole| >= |pattern| {
      assert whole[..|pattern|][0] == c;
    } else {
      assert ReplaceAll(rest, pattern, replacement) == rest;
    }
  }

  lemma {:induction false} SeparatorsRestored(part: string)
    ensures ReplaceAll(EscapeChars(part), "%3B", ";") == EscapePercents(part)
  {
    if part != "" {
      var rest := EscapeChars(part[1..]);
      SeparatorsRestored(part[1..]);
      if part[0] == '%' {
        KeepsEscapedPercent(rest, "%3B", ";");
      } else if part[0] == SEPARATOR {
      } else {
        assert EscapeChars(part) == [part[0]] + rest;
        KeepsOther(part[0], rest, "%3B", ";");
      }
    }
  }

  lemma {:induction false} PercentsRestored(part: string)
    ensures ReplaceAll(EscapePercents(part), "%25", "%") == part
  {
    if part != "" {
      var rest := EscapePercents(part[1..]);
      PercentsRestored(part[1..]);
      assert part == [part[0]] + part[1..];
      if part[0] == '%' {
      } else {
        assert EscapePercents(part) == [part[0]] + rest;
        KeepsOther(part[0], rest, "%25", "%");
      }
    }
  }

  /** Unescaping undoes escaping, and an escaped segment holds no separator. */
  lemma UnescapeUndoesEscape(part: string)
    ensures UnescapeGUIDPart(EscapeGUIDPart(part)) == part
    ensures SEPARATOR !in EscapeGUIDPart(part)
    ensures '%' !in part && SEPARATOR !in part ==> EscapeGUIDPart(part) == part
  {
    EscapeIsCharwise(part);
    SeparatorsRestored(part);
    PercentsRestored(part);
    NoSeparator(part);
  }

  lemma {:induction false} NoSeparator(part: string)
    ensures SEPARATOR !in EscapeChars(part)
    ensures '%' !in part && SEPARATOR !in part ==> EscapeChars(part) == part
  {
    if part != "" {
      assert part == [part[0]] + part[1..];
      NoSeparator(part[1..]);
    }
  }

  // ----- Splitting undoes building -----

  ghost predicate Plain(parts: seq<string>) {
    forall part | part in parts :: SEPARATOR !in part
  }

  lemma {:induction false} SplitPlain(s: string)
    requires SEPARATOR !in s
    ensures Split(s) == [s]
  {
    if s != "" {
      SplitPlain(s[1..]);
      assert s == [s[0]] + s[1..];
    }
  }

  lemma {:induction false} SplitAtSeparator(a: string, b: string)
    ensures Split(a + [SEPARATOR] + b) == Split(a) + Split(b)
  {
    var whole := a + [SEPARATOR] + b;
    if a == "" {
      assert whole[1..] == b;
    } else {
      var rest, tail := Split(a[1..]), Split(b);
      assert whole[1..] == a[1..] + [SEPARATOR] + b;
      SplitAtSeparator(a[1..], b);
      ConcatParts(a[0], rest, tail);
    }
  }

  lemma ConcatParts(c: char, rest: seq<string>, tail: seq<string>)
    requires rest != []
    ensures [""] + (rest + tail) == [""] + rest + tail
    ensures [[c] + (rest + tail)[0]] + (rest + tail)[1..] == [[c] + rest[0]] + rest[1..] + tail
  {
  }

  lemma {:induction false} SplitUndoesJoin(parts: seq<string>)
    requires parts != [] && Plain(parts)
    ensures Split(Join(parts)) == parts
  {
    SplitPlain(parts[0]);
    if |parts| > 1 {
      SplitUndoesJoin(parts[1..]);
      SplitAtSeparator(parts[0], Join(parts[1..]));
      assert parts == [parts[0]] + parts[1..];
    }
  }

  lemma EscapedArePlain(parts: seq<string>)
    ensures Plain(EscapedParts(parts))
  {
    forall i | 0 <= i < |parts| ensures SEPARATOR !in EscapedParts(parts)[i] {
      UnescapeUndoesEscape(parts[i]);
    }
  }

  lemma RawSegments(parts: seq<string>)
    requires parts != []
    ensures Split(MetaGUID(parts)) == EscapedParts(parts)
  {
    EscapedArePlain(parts);
    SplitUndoesJoin(EscapedParts(parts));
  }

  lemma UnescapedEscaped(parts: seq<string>)
    ensures UnescapedParts(EscapedParts(parts)) == parts
  {
    forall i | 0 <= i < |parts| ensures UnescapedParts(EscapedParts(parts))[i] == parts[i] {
      UnescapeUndoesEscape(parts[i]);
    }
  }

  /** Main result: splitting returns the segments a GUID was built of; only the empty list is not told from [""]. */
  lemma SplitUndoesBuild(parts: seq<string>)
    ensures Segments(MetaGUID(parts)) == parts <==> parts != []
    ensures parts == [] ==> Segments(MetaGUID(parts)) == [""]
  {
    if parts != [] {
      RawSegments(parts);
      UnescapedEscaped(parts);
    }
  }

  lemma BuildIsInjective(a: seq<string>, b: seq<string>)
    requires a != [] && b != []
    ensures MetaGUID(a) == MetaGUID(b) <==> a == b
  {
    SplitUndoesBuild(a);
    SplitUndoesBuild(b);
  }

  // ----- Parents -----

  lemma {:induction false} JoinLast(parts: seq<string>)
    requires |parts| > 1
    ensures Join(parts) == Join(parts[..|parts| - 1]) + [SEPARATOR] + parts[|parts| - 1]
  {
    if |parts| > 2 {
      JoinLast(parts[1..]);
      assert parts[1..][..|parts| - 2] == parts[..|parts| - 1][1..];
    }
  }

  lemma {:induction false} LastIndexBefore(a: string, b: string)
    requires SEPARATOR !in b
    ensures LastIndex(a + [SEPARATOR] + b) == |a|
  {
    var s := a + [SEPARATOR] + b;
    if b != "" {
      assert s[..|s| - 1] == a + [SEPARATOR] + b[..|b| - 1];
      LastIndexBefore(a, b[..|b| - 1]);
    }
  }

  lemma {:induction false} NoIndex(s: string)
    requires SEPARATOR !in s
    ensures LastIndex(s) == -1
  {
    if s != "" { NoIndex(s[..|s| - 1]); }
  }

  lemma PrefixBefore(a: string, b: string)
    requires SEPARATOR !in b
    ensures GUIDPrefix(a + [SEPARATOR] + b) == a
  {
    LastIndexBefore(a, b);
  }

  lemma PrefixOfJoin(parts: seq<string>)
    requires parts != [] && Plain(parts)
    ensures GUIDPrefix(Join(parts)) == Join(parts[..|parts| - 1])
  {
    var last := parts[|parts| - 1];
    assert last in parts;
    if |parts| == 1 {
      NoIndex(last);
    } else {
      JoinLast(parts);
      PrefixBefore(Join(parts[..|parts| - 1]), last);
    }
  }

  /** The prefix of a GUID is its parent's GUID. */
  lemma PrefixIsParent(parts: seq<string>)
    requires parts != []
    ensures GUIDPrefix(MetaGUID(parts)) == MetaGUID(parts[..|parts| - 1])
  {
    EscapedArePlain(parts);
    PrefixOfJoin(EscapedParts(parts));
    assert EscapedParts(parts[..|parts| - 1]) == EscapedParts(parts)[..|parts| - 1];
  }

  /** The instance is known from any GUID below it, and from no instance's own GUID. */
  lemma InstanceIsFirst(parts: seq<string>)
    requires parts != []
    ensures InstanceOf(MetaGUID(parts)) == if |parts| == 1 then None else Some(parts[0])
  {
    RawSegments(parts);
    UnescapeUndoesEscape(parts[0]);
  }

  // ----- The subtree condition -----

  /** LIKE with backslash as the escape character; a pattern that ends in one matches nothing. */
  predicate Like(s: string, pattern: string)
    decreases |pattern|, |s|
  {
    if pattern == "" then s == ""
    else if pattern[0] == '%' then Like(s, pattern[1..]) || (s != "" && Like(s[1..], pattern))
    else if pattern[0] == '_' then s != "" && Like(s[1..], pattern[1..])
    else if pattern[0] == '\\' then |pattern| > 1 && s != "" && s[0] == pattern[1] && Like(s[1..], pattern[2..])
    else s != "" && s[0] == pattern[0] && Like(s[1..], pattern[1..])
  }

  /** An underscore matches any one character, a backslash the character behind it, any other itself. */
  lemma LikeByCases(s: string, pattern: string, c: char)
    ensures Like(s, ['_'] + pattern) <==> s != "" && Like(s[1..], pattern)
    ensures Like(s, ['\\', c] + pattern) <==> s != "" && s[0] == c && Like(s[1..], pattern)
    ensures c != '%' && c != '_' && c != '\\' ==> (Like(s, [c] + pattern) <==> s != "" && s[0] == c && Like(s[1..], pattern))
  {
    assert (['_'] + pattern)[1..] == pattern && ([c] + pattern)[1..] == pattern;
    assert (['\\', c] + pattern)[2..] == pattern && (['\\', c] + pattern)[1] == c;
  }

  ghost predicate LikeBehind(s: string, pattern: string, k: nat) {
    k <= |s| && Like(s[k..], pattern)
  }

  /** A percent sign matches any text. */
  lemma {:induction false} LikeAnyText(s: string, whole: string)
    requires whole != "" && whole[0] == '%'
    ensures Like(s, whole) <==> exists k: nat :: LikeBehind(s, whole[1..], k)
    decreases |s|
  {
    var pattern := whole[1..];
    assert s[0..] == s;
    assert Like(s, pattern) <==> LikeBehind(s, pattern, 0);
    if s != "" {
      var rest := s[1..];
      LikeAnyText(rest, whole);
      forall k: nat ensures LikeBehind(rest, pattern, k) <==> LikeBehind(s, pattern, k + 1) {
        if k < |s| { assert rest[k..] == s[k + 1..]; }
      }
      if k: nat :| LikeBehind(s, pattern, k) && k > 0 { assert LikeBehind(rest, pattern, k - 1); }
      if k: nat :| LikeBehind(rest, pattern, k) { assert LikeBehind(s, pattern, k + 1); }
    }
  }

  /** likePatternEscaper */
  function EscapePattern(s: string): string {
    if s == "" then ""
    else (if s[0] == '\\' || s[0] == '%' || s[0] == '_' then ['\\', s[0]] else [s[0]]) + EscapePattern(s[1..])
  }

  /** appendGUIDSubtreeCondition */
  predicate InSubtree(guid: string, prefix: string) {
    guid == prefix || Like(guid, EscapePattern(prefix + [SEPARATOR]) + "%")
  }

  lemma {:induction false} PercentMatchesAll(s: string)
    ensures Like(s, "%")
  {
    if s != "" { PercentMatchesAll(s[1..]); }
  }

  lemma {:induction false} LikeIsPrefix(s: string, prefix: string)
    ensures Like(s, EscapePattern(prefix) + "%") <==> prefix <= s
  {
    var pattern := EscapePattern(prefix) + "%";
    if prefix == "" {
      assert pattern == "%";
      PercentMatchesAll(s);
    } else {
      var rest := EscapePattern(prefix[1..]) + "%";
      assert prefix == [prefix[0]] + prefix[1..];
      if prefix[0] == '\\' || prefix[0] == '%' || prefix[0] == '_' {
        assert pattern[2..] == rest;
      } else {
        assert pattern[1..] == rest;
      }
      if s != "" {
        assert s == [s[0]] + s[1..];
        LikeIsPrefix(s[1..], prefix[1..]);
        assert prefix <= s <==> s[0] == prefix[0] && prefix[1..] <= s[1..];
      }
    }
  }

  lemma {:induction false} JoinConcat(a: seq<string>, b: seq<string>)
    requires a != [] && b != []
    ensures Join(a + b) == Join(a) + [SEPARATOR] + Join(b)
  {
    assert (a + b)[1..] == a[1..] + b;
    if |a| > 1 {
      JoinConcat(a[1..], b);
    } else {
      assert a[1..] + b == b;
    }
  }

  /** Main result: the condition accepts a GUID exactly when the prefix's segments begin its own. */
  lemma SubtreeIsDescendants(parts: seq<string>, prefix: seq<string>)
    requires parts != [] && prefix != []
    ensures InSubtree(MetaGUID(parts), MetaGUID(prefix)) <==> prefix <= parts
  {
    var guid, parent := MetaGUID(parts), MetaGUID(prefix);
    LikeIsPrefix(guid, parent + [SEPARATOR]);
    BuildIsInjective(parts, prefix);
    RawSegments(parts);
    RawSegments(prefix);
    if parent + [SEPARATOR] <= guid {
      var rest := guid[|parent| + 1..];
      assert guid == parent + [SEPARATOR] + rest;
      SplitAtSeparator(parent, rest);
      EscapedPrefix(parts, prefix);
    }
    if prefix <= parts && prefix != parts {
      var rest := parts[|prefix|..];
      assert EscapedParts(parts) == EscapedParts(prefix) + EscapedParts(rest);
      JoinConcat(EscapedParts(prefix), EscapedParts(rest));
    }
  }

  lemma EscapedPrefix(parts: seq<string>, prefix: seq<string>)
    requires EscapedParts(prefix) <= EscapedParts(parts)
    ensures prefix <= parts
  {
    forall i | 0 <= i < |prefix| ensures prefix[i] == parts[i] {
      assert EscapedParts(prefix)[i] == EscapedParts(parts)[i];
      UnescapeUndoesEscape(prefix[i]);
      UnescapeUndoesEscape(parts[i]);
    }
  }
}
