/**
 Environment ids: a slug of the title, and a counter when the slug is taken. Unicode's case and space
 tables are parameters; all that is asked of them is that they leave slugs alone.
 */
module EnvironmentSlug {

  datatype Unicode = Unicode(lower: char -> char, fold: char -> char, space: char -> bool)

  predicate Letter(c: char) {
    'a' <= c <= 'z' || '0' <= c <= '9'
  }

  /** Lowering and trimming leave the characters of an id as they are. */
  ghost predicate KeepsSlugs(u: Unicode) {
    forall c | Letter(c) || c == '-' :: u.lower(c) == c && !u.space(c)
  }

  // ----- Library functions on strings -----

  function Lower(u: Unicode, s: string): string {
    seq(|s|, i requires 0 <= i < |s| => u.lower(s[i]))
  }

  /** Two titles are equal under case folding when their folded forms are. */
  function Fold(u: Unicode, s: string): string {
    seq(|s|, i requires 0 <= i < |s| => u.fold(s[i]))
  }

  function TrimSpace(u: Unicode, s: string): string {
    if s == "" then ""
    else if u.space(s[0]) then TrimSpace(u, s[1..])
    else if u.space(s[|s| - 1]) then TrimSpace(u, s[..|s| - 1])
    else s
  }

  /** Trimming takes the spaces at both ends and nothing else. */
  lemma {:induction false} TrimExactly(u: Unicode, s: string) returns (a: nat, b: nat)
    ensures a <= b <= |s| && TrimSpace(u, s) == s[a..b]
    ensures (forall i | 0 <= i < a :: u.space(s[i])) && (forall i | b <= i < |s| :: u.space(s[i]))
    ensures a < b ==> !u.space(s[a]) && !u.space(s[b - 1])
    decreases |s|
  {
    if s == "" {
      a, b := 0, 0;
    } else if u.space(s[0]) {
      var a1, b1 := TrimExactly(u, s[1..]);
      a, b := a1 + 1, b1 + 1;
      var rest := s[1..];
      assert forall i | 0 < i < |s| :: s[i] == rest[i - 1];
      assert |s[a..b]| == |rest[a1..b1]| && forall i | 0 <= i < b1 - a1 :: s[a..b][i] == rest[a1..b1][i];
    } else if u.space(s[|s| - 1]) {
      var rest := s[..|s| - 1];
      a, b := TrimExactly(u, rest);
      assert s[a..b] == rest[a..b];
      assert forall i | 0 <= i < |rest| :: s[i] == rest[i];
    } else {
      a, b := 0, |s|;
      assert s[a..b] == s;
    }
  }

  /** The small letters a to z and the digits 0 to 9, by their codes. */
  lemma LettersByCode(c: char)
    ensures Letter(c) <==> 97 <= c as int <= 122 || 48 <= c as int <= 57
  {
  }

  // ----- Slugs -----

  /** The maximal runs of letters and digits. */
  function Runs(s: string): seq<string> {
    if s == "" then []
    else
      var rest, c := s[..|s| - 1], s[|s| - 1];
      var runs := Runs(rest);
      if !Letter(c) then runs
      else if rest != "" && Letter(rest[|rest| - 1]) && runs != [] then runs[..|runs| - 1] + [runs[|runs| - 1] + [c]]
      else runs + [[c]]
  }

  function JoinDashes(runs: seq<string>): string {
    if |runs| == 0 then ""
    else if |runs| == 1 then runs[0]
    else JoinDashes(runs[..|runs| - 1]) + "-" + runs[|runs| - 1]
  }

  function Slug(u: Unicode, title: string): string {
    JoinDashes(Runs(Lower(u, TrimSpace(u, title))))
  }

  ghost predicate Run(s: string) {
    s != "" && forall c | c in s :: Letter(c)
  }

  ghost predicate AllRuns(runs: seq<string>) {
    forall r | r in runs :: Run(r)
  }

  /** slugifyEnvironmentID */
  method Slugify(u: Unicode, title: string) returns (builder: string)
    ensures builder == Slug(u, title)
  {
    var text := Lower(u, TrimSpace(u, title));
    builder := "";
    var pendingDash := false;
    for i := 0 to |text|
      invariant SlugSoFar(text, i, builder, pendingDash)
    {
      SlugStep(text, i, builder, pendingDash);
      var r := text[i];
      if Letter(r) {
        if pendingDash && |builder| > 0 {
          builder := builder + "-";
        }
        pendingDash := false;
        builder := builder + [r];
        continue;
      }
      pendingDash := true;
    }
    assert text[..|text|] == text;
  }

  ghost predicate SlugSoFar(text: string, n: nat, builder: string, pendingDash: bool)
    requires n <= |text|
  {
    && builder == JoinDashes(Runs(text[..n]))
    && (pendingDash <==> n > 0 && !Letter(text[n - 1]))
  }

  lemma SlugStep(text: string, n: nat, builder: string, pendingDash: bool)
    requires n < |text| && SlugSoFar(text, n, builder, pendingDash)
    ensures !Letter(text[n]) ==> SlugSoFar(text, n + 1, builder, true)
    ensures Letter(text[n]) ==>
              SlugSoFar(text, n + 1, (if pendingDash && |builder| > 0 then builder + "-" else builder) + [text[n]], false)
  {
    var before, runs, c := text[..n], Runs(text[..n]), text[n];
    assert text[..n + 1] == before + [c];
    RunsStep(before, c);
    RunsAreRuns(before);
    if Letter(c) {
      if n > 0 && Letter(text[n - 1]) {
        EndsInRun(before);
        JoinExtended(runs, c);
      } else {
        JoinNotEmpty(runs);
      }
    }
  }

  lemma RunsStep(s: string, c: char)
    ensures !Letter(c) ==> Runs(s + [c]) == Runs(s)
    ensures Letter(c) && s != "" && Letter(s[|s| - 1]) && Runs(s) != [] ==> Runs(s + [c]) == Extended(Runs(s), c)
    ensures Letter(c) && (s == "" || !Letter(s[|s| - 1])) ==> Runs(s + [c]) == Runs(s) + [[c]]
  {
    assert (s + [c])[..|s|] == s;
  }

  function Extended(runs: seq<string>, c: char): seq<string>
    requires runs != []
  {
    runs[..|runs| - 1] + [runs[|runs| - 1] + [c]]
  }

  lemma JoinExtended(runs: seq<string>, c: char)
    requires runs != []
    ensures JoinDashes(Extended(runs, c)) == JoinDashes(runs) + [c]
  {
    assert Extended(runs, c)[..|runs| - 1] == runs[..|runs| - 1];
  }

  lemma {:induction false} RunsAreRuns(s: string)
    ensures AllRuns(Runs(s))
  {
    if s != "" {
      RunsAreRuns(s[..|s| - 1]);
      var runs := Runs(s[..|s| - 1]);
      if runs != [] { assert Run(runs[|runs| - 1]); }
    }
  }

  /** A string that ends in a letter ends in a run. */
  lemma {:induction false} EndsInRun(s: string)
    requires s != "" && Letter(s[|s| - 1])
    ensures Runs(s) != []
  {
  }

  lemma {:induction false} JoinNotEmpty(runs: seq<string>)
    requires AllRuns(runs)
    ensures JoinDashes(runs) == "" <==> runs == []
  {
    if |runs| >= 1 { assert Run(runs[|runs| - 1]); }
  }

  // ----- The form of a slug -----

  /** Runs of letters and digits joined by single dashes. */
  ghost predicate IsSlug(s: string) {
    && (forall i | 0 <= i < |s| :: Letter(s[i]) || s[i] == '-')
    && (s != "" ==> s[0] != '-' && s[|s| - 1] != '-')
    && (forall i | 0 <= i < |s| - 1 :: !(s[i] == '-' && s[i + 1] == '-'))
  }

  lemma RunIsSlug(r: string)
    requires Run(r)
    ensures IsSlug(r)
  {
    assert forall i | 0 <= i < |r| :: r[i] in r;
  }

  lemma SlugAppendRun(s: string, r: string)
    requires IsSlug(s) && s != "" && Run(r)
    ensures IsSlug(s + "-" + r)
  {
    RunIsSlug(r);
    assert forall i | 0 <= i < |r| :: r[i] in r;
    var longer := s + "-" + r;
    forall i | 0 <= i < |longer| ensures longer[i] == if i < |s| then s[i] else if i == |s| then '-' else r[i - |s| - 1] {
    }
  }

  lemma {:induction false} JoinIsSlug(runs: seq<string>)
    requires AllRuns(runs)
    ensures IsSlug(JoinDashes(runs))
  {
    if |runs| >= 1 {
      assert Run(runs[|runs| - 1]);
      RunIsSlug(runs[|runs| - 1]);
      if |runs| > 1 {
        JoinIsSlug(runs[..|runs| - 1]);
        JoinNotEmpty(runs[..|runs| - 1]);
        SlugAppendRun(JoinDashes(runs[..|runs| - 1]), runs[|runs| - 1]);
      }
    }
  }

  /** A run after a dash is one more run. */
  lemma {:induction false} RunsAppendRun(s: string, r: string)
    requires Run(r) && (s != "" ==> !Letter(s[|s| - 1]))
    ensures Runs(s + r) == Runs(s) + [r]
  {
    var rest, c := r[..|r| - 1], r[|r| - 1];
    assert r == rest + [c];
    assert (s + r)[..|s + r| - 1] == s + rest;
    if rest == "" {
      assert s + rest == s && r == [c];
    } else {
      assert forall x | x in rest :: x in r;
      RunsAppendRun(s, rest);
      assert rest[|rest| - 1] in rest;
    }
  }

  lemma {:induction false} RunsOfJoin(runs: seq<string>)
    requires AllRuns(runs)
    ensures Runs(JoinDashes(runs)) == runs
  {
    if |runs| >= 1 {
      var rest, last := runs[..|runs| - 1], runs[|runs| - 1];
      assert Run(last);
      assert runs == rest + [last];
      if |runs| == 1 {
        RunsAppendRun("", last);
        assert "" + last == last;
      } else {
        var before := JoinDashes(rest);
        RunsOfJoin(rest);
        assert (before + "-")[..|before|] == before;
        RunsAppendRun(before + "-", last);
      }
    }
  }

  lemma SlugUntouched(u: Unicode, s: string)
    requires KeepsSlugs(u) && IsSlug(s)
    ensures Lower(u, TrimSpace(u, s)) == s
  {
  }

  /** Slugs have the form of a slug, and slugify is the identity on them. */
  lemma SlugifyIsIdempotent(u: Unicode, title: string)
    requires KeepsSlugs(u)
    ensures IsSlug(Slug(u, title))
    ensures Slug(u, Slug(u, title)) == Slug(u, title)
    ensures Slug(u, title) == "" <==> forall c | c in Lower(u, TrimSpace(u, title)) :: !Letter(c)
  {
    var text := Lower(u, TrimSpace(u, title));
    RunsAreRuns(text);
    JoinIsSlug(Runs(text));
    RunsOfJoin(Runs(text));
    SlugUntouched(u, Slug(u, title));
    JoinNotEmpty(Runs(text));
    NoRunsExactly(text);
  }

  lemma {:induction false} NoRunsExactly(s: string)
    ensures Runs(s) == [] <==> forall c | c in s :: !Letter(c)
  {
    if s != "" {
      NoRunsExactly(s[..|s| - 1]);
      assert s == s[..|s| - 1] + [s[|s| - 1]];
    }
  }

  // ----- Candidates -----

  function Decimal(n: nat): string {
    if n < 10 then [('0' as int + n) as char] else Decimal(n / 10) + [('0' as int + n % 10) as char]
  }

  /** The number a string of digits stands for, in base ten. */
  function ValueOf(digits: string): int {
    if digits == "" then 0 else 10 * ValueOf(digits[..|digits| - 1]) + (digits[|digits| - 1] as int - 48)
  }

  /** The counter is written in decimal digits, without leading zeros. */
  lemma {:induction false} DecimalIsNumber(n: nat)
    ensures Decimal(n) != "" && ValueOf(Decimal(n)) == n
    ensures forall i | 0 <= i < |Decimal(n)| :: 48 <= Decimal(n)[i] as int <= 57
    ensures Decimal(n)[0] as int == 48 ==> n == 0
  {
    if n < 10 {
      assert Decimal(n)[..0] == "";
    } else {
      DecimalIsNumber(n / 10);
      var digits, last := Decimal(n), n % 10;
      assert digits[..|digits| - 1] == Decimal(n / 10);
      assert digits[0] == Decimal(n / 10)[0];
    }
  }

  lemma {:induction false} DecimalIsInjective(a: nat, b: nat)
    requires Decimal(a) == Decimal(b)
    ensures a == b
  {
    var x, y := Decimal(a), Decimal(b);
    assert x[|x| - 1] == y[|y| - 1];
    if a >= 10 && b >= 10 {
      assert x[..|x| - 1] == Decimal(a / 10) && y[..|y| - 1] == Decimal(b / 10);
      DecimalIsInjective(a / 10, b / 10);
    } else {
    }
  }

  function Candidate(base: string, n: nat): string {
    if n == 0 then base else base + "-" + Decimal(n)
  }

  lemma CandidatesDiffer(base: string, a: nat, b: nat)
    requires Candidate(base, a) == Candidate(base, b)
    ensures a == b
  {
    var x, y := Candidate(base, a), Candidate(base, b);
    if a > 0 && b > 0 {
      assert x[|base| + 1..] == Decimal(a) && y[|base| + 1..] == Decimal(b);
      DecimalIsInjective(a, b);
    }
  }

  ghost function Tried(base: string, n: nat): set<string> {
    set i | 0 <= i < n :: Candidate(base, i)
  }

  /** The first `n` candidates are pairwise different, so no more of them are taken than there are ids. */
  lemma {:induction false} TriedMany(base: string, n: nat)
    ensures |Tried(base, n)| == n
  {
    if n > 0 {
      TriedMany(base, n - 1);
      assert Tried(base, n) == Tried(base, n - 1) + {Candidate(base, n - 1)};
      if i :| 0 <= i < n - 1 && Candidate(base, i) == Candidate(base, n - 1) {
        CandidatesDiffer(base, i, n - 1);
      }
    }
  }

  lemma FewerTriedThanTaken(base: string, n: nat, taken: set<string>)
    requires Tried(base, n) <= taken
    ensures n <= |taken|
  {
    TriedMany(base, n);
    var rest := taken - Tried(base, n);
    assert taken == Tried(base, n) + rest;
  }
}
