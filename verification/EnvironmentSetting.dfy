/**
 The environment setting: creating, updating and deleting environments keeps their ids unique and
 immutable, and their titles unique under case folding.
 */
module EnvironmentSetting {
  import opened Ordering
  import opened EnvironmentSlug

  datatype Environment = Environment(id: string, title: string, color: string, tags: map<string, string>)

  datatype EnvironmentPatch = EnvironmentPatch(title: Option<string>, color: Option<string>, tags: Option<map<string, string>>)

  datatype Error = Invalid | Conflict | NotFound

  datatype Result<+T> = Ok(value: T) | Err(error: Error)

  const ENVIRONMENT_PALETTE := ["slate", "blue", "green", "amber", "orange", "red", "violet", "pink"]

  function Ids(environments: seq<Environment>): set<string> {
    set e | e in environments :: e.id
  }

  /** Ids are unique, titles are unique under case folding. */
  ghost predicate Unique(u: Unicode, environments: seq<Environment>) {
    forall i, j | 0 <= i < j < |environments| ::
      environments[i].id != environments[j].id && Fold(u, environments[i].title) != Fold(u, environments[j].title)
  }

  ghost predicate Colored(environments: seq<Environment>) {
    forall e | e in environments :: e.color in ENVIRONMENT_PALETTE
  }

  ghost predicate HasTitle(u: Unicode, environments: seq<Environment>, title: string) {
    exists i :: 0 <= i < |environments| && Fold(u, environments[i].title) == Fold(u, title)
  }

  function BaseOf(u: Unicode, title: string): string {
    var slug := Slug(u, title);
    if slug == "" then "env" else slug
  }

  /** The first candidate that is not taken. */
  ghost predicate IsFreeId(environments: seq<Environment>, base: string, id: string) {
    exists n :: FirstFree(environments, base, id, n)
  }

  ghost predicate FirstFree(environments: seq<Environment>, base: string, id: string, n: nat) {
    id == Candidate(base, n) && id !in Ids(environments) && Tried(base, n) <= Ids(environments)
  }

  /** resolveEnvironmentColor; the default is picked by a hash of the id. */
  function ResolvedColor(u: Unicode, hash: string -> nat, id: string, color: string): Result<string> {
    var lowered := Lower(u, TrimSpace(u, color));
    if lowered == "" then Ok(ENVIRONMENT_PALETTE[hash(id) % |ENVIRONMENT_PALETTE|])
    else if lowered in ENVIRONMENT_PALETTE then Ok(lowered)
    else Err(Invalid)
  }

  predicate KnownColor(color: string) {
    color == "" || color == "slate" || color == "blue" || color == "green" || color == "amber" || color == "orange" || color == "red" ||
    color == "violet" || color == "pink"
  }

  /** The given color, or one of the eight by a hash of the id. */
  function ColorOf(color: string, hash: nat): string {
    if color != "" then color
    else
      match hash % 8
      case 0 => "slate"
      case 1 => "blue"
      case 2 => "green"
      case 3 => "amber"
      case 4 => "orange"
      case 5 => "red"
      case 6 => "violet"
      case _ => "pink"
  }

  /** Why a create fails, if it does. */
  ghost function CreateError(u: Unicode, hash: string -> nat, environments: seq<Environment>, title: string, color: string): Option<Error> {
    var trimmed := TrimSpace(u, title);
    if trimmed == "" then Some(Invalid)
    else if HasTitle(u, environments, trimmed) then Some(Conflict)
    else if ResolvedColor(u, hash, "", color).Err? then Some(Invalid)
    else None
  }

  predicate RefusesColor(u: Unicode, hash: string -> nat, id: string, patch: EnvironmentPatch) {
    patch.color.Some? && ResolvedColor(u, hash, id, patch.color.value).Err?
  }

  predicate ValidPatch(u: Unicode, hash: string -> nat, id: string, patch: EnvironmentPatch) {
    && (patch.title.Some? ==> TrimSpace(u, patch.title.value) != "")
    && !RefusesColor(u, hash, id, patch)
  }

  /** The index the search by id finds. */
  function IndexOf(environments: seq<Environment>, id: string): nat {
    if environments == [] || environments[0].id == id then 0 else 1 + IndexOf(environments[1..], id)
  }

  lemma {:induction false} FirstIndex(environments: seq<Environment>, id: string, i: nat)
    requires i < |environments| && environments[i].id == id && forall j | 0 <= j < i :: environments[j].id != id
    ensures IndexOf(environments, id) == i
  {
    if i > 0 { FirstIndex(environments[1..], id, i - 1); }
  }

  /** Environment `j` is the first to hold the title. */
  ghost predicate FirstHolds(u: Unicode, environments: seq<Environment>, title: string, j: nat) {
    && j < |environments| && Fold(u, environments[j].title) == Fold(u, title)
    && forall k | 0 <= k < j :: Fold(u, environments[k].title) != Fold(u, title)
  }

  ghost predicate HeldByOther(u: Unicode, environments: seq<Environment>, index: nat, title: string) {
    exists j :: j != index && FirstHolds(u, environments, title, j)
  }

  /** The patched title belongs to another environment. */
  ghost predicate TitleTaken(u: Unicode, environments: seq<Environment>, index: nat, patch: EnvironmentPatch) {
    patch.title.Some? && TrimSpace(u, patch.title.value) != "" &&
    HeldByOther(u, environments, index, TrimSpace(u, patch.title.value))
  }

  /** While titles are unique that is so exactly when any other environment holds it. */
  lemma TitleTakenExactly(u: Unicode, environments: seq<Environment>, index: nat, patch: EnvironmentPatch)
    requires Unique(u, environments) && patch.title.Some? && TrimSpace(u, patch.title.value) != ""
    ensures TitleTaken(u, environments, index, patch) <==>
            exists j :: 0 <= j < |environments| && j != index && Fold(u, environments[j].title) == Fold(u, TrimSpace(u, patch.title.value))
  {
    if j: nat :| j < |environments| && j != index && Fold(u, environments[j].title) == Fold(u, TrimSpace(u, patch.title.value)) {
      assert FirstHolds(u, environments, TrimSpace(u, patch.title.value), j);
    }
  }

  function Retitled(u: Unicode, environments: seq<Environment>, index: nat, title: Option<string>): seq<Environment> {
    if title.Some? && index < |environments| then environments[index := environments[index].(title := TrimSpace(u, title.value))]
    else environments
  }

  lemma RetitledDiffers(u: Unicode, environments: seq<Environment>, index: nat, title: Option<string>)
    requires index < |environments| && title.Some?
    ensures Retitled(u, environments, index, title) == environments <==> environments[index].title == TrimSpace(u, title.value)
  {
    var after := Retitled(u, environments, index, title);
    if environments[index].title == TrimSpace(u, title.value) {
      assert environments[index].(title := TrimSpace(u, title.value)) == environments[index];
      assert after == environments;
    } else {
      assert after[index] != environments[index];
    }
  }

  predicate TitleWritten(u: Unicode, patch: EnvironmentPatch) {
    patch.title.Some? && TrimSpace(u, patch.title.value) != ""
  }

  /** The update is refused after it has written a new title. */
  ghost predicate LeavesTitle(u: Unicode, hash: string -> nat, environments: seq<Environment>, id: string, patch: EnvironmentPatch) {
    && id in Ids(environments) && RefusesColor(u, hash, id, patch)
    && patch.title.Some? && TrimSpace(u, patch.title.value) != "" && !TitleTaken(u, environments, IndexOf(environments, id), patch)
    && IndexOf(environments, id) < |environments| && environments[IndexOf(environments, id)].title != TrimSpace(u, patch.title.value)
  }

  /** A new title with a color that is not in the palette. */
  lemma RefusedUpdateRetitles(u: Unicode, hash: string -> nat)
    requires KeepsSlugs(u)
    ensures LeavesTitle(u, hash, [Environment("prod", "prod", "red", map[])], "prod", EnvironmentPatch(Some("live"), Some("gold"), None))
  {
    var environments, title, color := [Environment("prod", "prod", "red", map[])], "live", "gold";
    assert environments[0] in environments && IndexOf(environments, "prod") == 0;
    assert !u.space(title[0]) && !u.space(title[3]) && TrimSpace(u, title) == title;
    assert title[0] != "prod"[0];
    assert !u.space(color[0]) && !u.space(color[3]) && TrimSpace(u, color) == color;
    assert Lower(u, color) == color;
  }

  function Decorated(u: Unicode, hash: string -> nat, e: Environment, patch: EnvironmentPatch): Environment {
    e.(color := if patch.color.Some? && ResolvedColor(u, hash, e.id, patch.color.value).Ok?
                then ResolvedColor(u, hash, e.id, patch.color.value).value else e.color,
       tags := if patch.tags.Some? then patch.tags.value else e.tags)
  }

  /** An environment with the patched fields; its id is not one of them. */
  function Patched(u: Unicode, hash: string -> nat, e: Environment, patch: EnvironmentPatch): Environment {
    Decorated(u, hash, if patch.title.Some? then e.(title := TrimSpace(u, patch.title.value)) else e, patch)
  }

  /** No environment moves or changes its id, and only those with the given id change at all. */
  ghost predicate SameElsewhere(id: string, before: seq<Environment>, after: seq<Environment>) {
    && |before| == |after|
    && forall i | 0 <= i < |before| :: after[i].id == before[i].id && (before[i].id != id ==> after[i] == before[i])
  }

  class Setting {
    var environments: seq<Environment>

    constructor ()
      ensures environments == []
    {
      environments := [];
    }

    /** findEnvironmentByID */
    method FindByID(id: string) returns (index: int)
      ensures -1 <= index < |environments|
      ensures index >= 0 ==> environments[index].id == id
      ensures index == -1 <==> id !in Ids(environments)
      ensures forall i | 0 <= i < index :: environments[i].id != id
    {
      for i := 0 to |environments|
        invariant forall j | 0 <= j < i :: environments[j].id != id
      {
        if environments[i].id == id {
          assert environments[i] in environments;
          return i;
        }
      }
      index := -1;
    }

    /** findEnvironmentByTitle */
    method FindByTitle(u: Unicode, title: string) returns (index: int)
      ensures -1 <= index < |environments|
      ensures index >= 0 ==> Fold(u, environments[index].title) == Fold(u, title)
      ensures index == -1 <==> !HasTitle(u, environments, title)
      ensures forall i | 0 <= i < index :: Fold(u, environments[i].title) != Fold(u, title)
    {
      for i := 0 to |environments|
        invariant forall j | 0 <= j < i :: Fold(u, environments[j].title) != Fold(u, title)
      {
        if Fold(u, environments[i].title) == Fold(u, title) {
          return i;
        }
      }
      index := -1;
    }

    /** uniqueEnvironmentID: the counter cannot pass the number of environments. */
    method UniqueID(u: Unicode, title: string) returns (id: string)
      ensures IsFreeId(environments, BaseOf(u, title), id)
    {
      var base := Slugify(u, title);
      if base == "" {
        base := "env";
      }
      id := base;
      var found := FindByID(id);
      var n := 1;
      while found >= 0
        invariant n >= 1 && id == Candidate(base, n - 1)
        invariant Tried(base, n - 1) <= Ids(environments)
        invariant found == -1 <==> id !in Ids(environments)
        invariant found >= -1
        decreases |Ids(environments)| - n
      {
        assert Tried(base, n) == Tried(base, n - 1) + {Candidate(base, n - 1)};
        FewerTriedThanTaken(base, n, Ids(environments));
        id := base + "-" + Decimal(n);
        found := FindByID(id);
        n := n + 1;
      }
      assert FirstFree(environments, base, id, n - 1);
    }

    /** applyEnvironmentCreate */
    method Create(u: Unicode, hash: string -> nat, title: string, color: string) returns (r: Result<Environment>)
      modifies this
      ensures CreateError(u, hash, old(environments), title, color) == if r.Err? then Some(r.error) else None
      ensures r == Err(Invalid) <==>
                TrimSpace(u, title) == "" || (!HasTitle(u, old(environments), TrimSpace(u, title)) && !KnownColor(Lower(u, TrimSpace(u, color))))
      ensures r.Ok? ==> r.value.color == ColorOf(Lower(u, TrimSpace(u, color)), hash(r.value.id))
      ensures r.Err? ==> environments == old(environments)
      ensures r.Ok? ==> environments == old(environments) + [r.value]
      ensures r.Ok? ==> r.value.title == TrimSpace(u, title) && r.value.color in ENVIRONMENT_PALETTE && r.value.tags == map[]
      ensures r.Ok? ==> ResolvedColor(u, hash, r.value.id, color) == Ok(r.value.color)
      ensures r.Ok? ==> IsFreeId(old(environments), BaseOf(u, TrimSpace(u, title)), r.value.id)
      ensures old(Unique(u, environments)) ==> Unique(u, environments)
      ensures old(Colored(environments)) ==> Colored(environments)
    {
      var trimmed := TrimSpace(u, title);
      if trimmed == "" {
        return Err(Invalid);
      }
      var existing := FindByTitle(u, trimmed);
      if existing >= 0 {
        return Err(Conflict);
      }
      var id := UniqueID(u, trimmed);
      var resolved := ResolvedColor(u, hash, id, color);
      if resolved.Err? {
        return Err(resolved.error);
      }
      var environment := Environment(id, trimmed, resolved.value, map[]);
      environments := environments + [environment];
      r := Ok(environment);
    }

    /** The title part of an update. */
    method Retitle(u: Unicode, index: nat, title: string) returns (error: Option<Error>)
      requires index < |environments|
      modifies this
      ensures error == (if TrimSpace(u, title) == "" then Some(Invalid)
                        else if HeldByOther(u, old(environments), index, TrimSpace(u, title)) then Some(Conflict) else None)
      ensures environments == if error.Some? then old(environments)
                              else old(environments)[index := old(environments)[index].(title := TrimSpace(u, title))]
      ensures old(Unique(u, environments)) ==> Unique(u, environments)
    {
      var trimmed := TrimSpace(u, title);
      if trimmed == "" {
        return Some(Invalid);
      }
      var other := FindByTitle(u, trimmed);
      if other >= 0 && other != index {
        assert FirstHolds(u, environments, trimmed, other);
        return Some(Conflict);
      }
      environments := environments[index := environments[index].(title := trimmed)];
      error := None;
    }

    /** The color and the tags, for an environment that exists. */
    method Decorate(u: Unicode, hash: string -> nat, index: nat, patch: EnvironmentPatch) returns (error: Option<Error>)
      requires index < |environments|
      modifies this
      ensures error == (if patch.color.Some? && ResolvedColor(u, hash, old(environments)[index].id, patch.color.value).Err?
                        then Some(Invalid) else None)
      ensures environments == if error.Some? then old(environments)
                              else old(environments)[index := Decorated(u, hash, old(environments)[index], patch)]
      ensures old(Unique(u, environments)) ==> Unique(u, environments)
    {
      error := None;
      var environment := environments[index];
      if patch.color.Some? {
        var resolved := ResolvedColor(u, hash, environment.id, patch.color.value);
        if resolved.Err? {
          return Some(Invalid);
        }
        environment := environment.(color := resolved.value);
      }
      if patch.tags.Some? {
        environment := environment.(tags := patch.tags.value);
      }
      environments := environments[index := environment];
    }

    /** The update of the environment at an index: title first, then color and tags. */
    method ApplyPatch(u: Unicode, hash: string -> nat, index: nat, patch: EnvironmentPatch) returns (error: Option<Error>)
      requires index < |environments|
      modifies this
      ensures error == (if TitleTaken(u, old(environments), index, patch) then Some(Conflict)
                        else if !ValidPatch(u, hash, old(environments)[index].id, patch) then Some(Invalid) else None)
      ensures environments == if error.None? then old(environments)[index := Patched(u, hash, old(environments)[index], patch)]
                              else if error == Some(Invalid) && TitleWritten(u, patch) then Retitled(u, old(environments), index, patch.title)
                              else old(environments)
      ensures old(Unique(u, environments)) ==> Unique(u, environments)
    {
      error := None;
      if patch.title.Some? {
        error := Retitle(u, index, patch.title.value);
        if error.Some? {
          return;
        }
      }
      error := Decorate(u, hash, index, patch);
    }

    /**
     applyEnvironmentUpdate: the title is written before the color is checked, so a refused color
     leaves the new title in the setting, which the caller then discards.
     */
    method Update(u: Unicode, hash: string -> nat, id: string, patch: EnvironmentPatch) returns (r: Result<Environment>)
      modifies this
      ensures r == Err(NotFound) <==> id !in Ids(old(environments))
      ensures r == Err(Conflict) <==> id in Ids(old(environments)) && TitleTaken(u, old(environments), IndexOf(old(environments), id), patch)
      ensures r == Err(Invalid) <==> id in Ids(old(environments)) && !ValidPatch(u, hash, id, patch) &&
                                     !TitleTaken(u, old(environments), IndexOf(old(environments), id), patch)
      ensures r.Ok? <==> id in Ids(old(environments)) && ValidPatch(u, hash, id, patch) &&
                         !TitleTaken(u, old(environments), IndexOf(old(environments), id), patch)
      ensures r.Err? ==> (environments != old(environments) <==> LeavesTitle(u, hash, old(environments), id, patch))
      ensures r.Err? && environments != old(environments) ==>
                environments == Retitled(u, old(environments), IndexOf(old(environments), id), patch.title)
      ensures r.Ok? ==> var i := IndexOf(old(environments), id);
                        && i < |old(environments)| && old(environments)[i].id == id
                        && r.value == Patched(u, hash, old(environments)[i], patch) && environments == old(environments)[i := r.value]
      ensures SameElsewhere(id, old(environments), environments)
      ensures old(Unique(u, environments)) ==> Unique(u, environments)
    {
      var index := FindByID(id);
      if index < 0 {
        return Err(NotFound);
      }
      ghost var before := environments;
      assert before[index] in before;
      FirstIndex(before, id, index);
      var error := ApplyPatch(u, hash, index, patch);
      if patch.title.Some? { RetitledDiffers(u, before, index, patch.title); }
      r := if error.Some? then Err(error.value) else Ok(environments[index]);
    }

    /** applyEnvironmentDelete */
    method Delete(id: string) returns (r: Result<()>)
      modifies this
      ensures r.Err? <==> id !in Ids(old(environments))
      ensures r.Err? ==> r == Err(NotFound) && environments == old(environments)
      ensures r.Ok? ==> exists i :: 0 <= i < |old(environments)| && old(environments)[i].id == id &&
                          environments == old(environments)[..i] + old(environments)[i + 1..]
      ensures forall u :: old(Unique(u, environments)) ==> Unique(u, environments)
      ensures old(Colored(environments)) ==> Colored(environments)
    {
      var index := FindByID(id);
      if index < 0 {
        return Err(NotFound);
      }
      environments := environments[..index] + environments[index + 1..];
      r := Ok(());
    }
  }

  // ----- Whole runs -----

  datatype Operation =
    | Create(title: string, color: string)
    | Update(id: string, patch: EnvironmentPatch)
    | Delete(id: string)

  ghost predicate Removes(before: seq<Environment>, id: string, after: seq<Environment>) {
    exists i :: 0 <= i < |before| && before[i].id == id && after == before[..i] + before[i + 1..]
  }

  ghost predicate Appends(u: Unicode, hash: string -> nat, before: seq<Environment>, title: string, color: string, after: seq<Environment>) {
    && |after| == |before| + 1 && before <= after
    && var e := after[|before|];
       && e.title == TrimSpace(u, title) && IsFreeId(before, BaseOf(u, e.title), e.id)
       && ResolvedColor(u, hash, e.id, color) == Ok(e.color) && e.tags == map[]
  }

  ghost predicate Patches(u: Unicode, hash: string -> nat, before: seq<Environment>, id: string, patch: EnvironmentPatch, after: seq<Environment>) {
    var i := IndexOf(before, id);
    i < |before| && before[i].id == id && after == before[i := Patched(u, hash, before[i], patch)]
  }

  ghost predicate Accepts(u: Unicode, hash: string -> nat, environments: seq<Environment>, op: Operation) {
    match op
    case Create(title, color) => CreateError(u, hash, environments, title, color).None?
    case Update(id, patch) =>
      id in Ids(environments) && ValidPatch(u, hash, id, patch) && !TitleTaken(u, environments, IndexOf(environments, id), patch)
    case Delete(id) => id in Ids(environments)
  }

  /** What an operation leaves behind. One that fails is rolled back, with what it had written. */
  ghost predicate Performs(u: Unicode, hash: string -> nat, before: seq<Environment>, op: Operation, ok: bool, after: seq<Environment>) {
    && (ok <==> Accepts(u, hash, before, op))
    && if !ok then after == before
       else
         match op
         case Create(title, color) => Appends(u, hash, before, title, color, after)
         case Update(id, patch) => Patches(u, hash, before, id, patch, after)
         case Delete(id) => Removes(before, id, after)
  }

  /** No update and no delete of the environment. */
  ghost predicate Unnamed(operations: seq<Operation>, id: string) {
    forall op: Operation | op in operations :: (op.Update? ==> op.id != id) && (op.Delete? ==> op.id != id)
  }

  lemma RemovedAt(before: seq<Environment>, i: nat)
    requires i < |before|
    ensures var after := before[..i] + before[i + 1..];
            && |after| == |before| - 1
            && forall j | 0 <= j < |after| :: after[j] == before[if j < i then j else j + 1]
  {
  }

  lemma RemovedMembers(u: Unicode, before: seq<Environment>, i: nat, after: seq<Environment>, e: Environment)
    requires Unique(u, before) && i < |before| && |after| == |before| - 1
    requires forall j | 0 <= j < |after| :: after[j] == before[if j < i then j else j + 1]
    ensures e in after <==> e in before && e.id != before[i].id
  {
    if e in before && e.id != before[i].id {
      var j :| 0 <= j < |before| && before[j] == e;
      assert after[if j < i then j else j - 1] == e;
    }
    if e in after {
      var j :| 0 <= j < |after| && after[j] == e;
      assert e == before[if j < i then j else j + 1];
    }
  }

  lemma RemovedIds(u: Unicode, before: seq<Environment>, id: string, after: seq<Environment>)
    requires Unique(u, before) && Removes(before, id, after)
    ensures id in Ids(before) && Ids(after) == Ids(before) - {id}
    ensures forall e | e in before && e.id != id :: e in after
  {
    var i :| 0 <= i < |before| && before[i].id == id && after == before[..i] + before[i + 1..];
    assert before[i] in before;
    RemovedAt(before, i);
    forall e ensures e in after <==> e in before && e.id != id { RemovedMembers(u, before, i, after, e); }
  }

  lemma SameIds(id: string, before: seq<Environment>, after: seq<Environment>)
    requires SameElsewhere(id, before, after)
    ensures Ids(after) == Ids(before)
    ensures forall e | e in before && e.id != id :: e in after
  {
    forall e | e in before ensures e.id in Ids(after) && (e.id != id ==> e in after) {
      var j :| 0 <= j < |before| && before[j] == e;
      assert after[j] in after;
    }
    forall e | e in after ensures e.id in Ids(before) {
      var j :| 0 <= j < |after| && after[j] == e;
      assert before[j] in before;
    }
  }

  /** Only a successful delete makes an id disappear, and only its own; what is not named stays as it is. */
  lemma OnlyDeletedDisappears(u: Unicode, hash: string -> nat, before: seq<Environment>, op: Operation, ok: bool, after: seq<Environment>)
    requires Unique(u, before) && Performs(u, hash, before, op, ok, after)
    ensures Ids(before) - Ids(after) == if ok && op.Delete? then {op.id} else {}
    ensures forall e | e in before && (!ok || op.Create? || op.id != e.id) :: e in after
  {
    if ok {
      match op
      case Create(_, _) => assert forall e | e in before :: e in after;
      case Update(id, _) => SameIds(id, before, after);
      case Delete(id) => RemovedIds(u, before, id, after);
    }
  }

  lemma PatchedIsColored(u: Unicode, hash: string -> nat, e: Environment, patch: EnvironmentPatch)
    requires e.color in ENVIRONMENT_PALETTE
    ensures Patched(u, hash, e, patch).color in ENVIRONMENT_PALETTE
  {
  }

  /** mutateEnvironments: one operation in a transaction, stored only if it succeeds. */
  method Mutate(s: Setting, u: Unicode, hash: string -> nat, op: Operation) returns (ok: bool)
    requires Unique(u, s.environments) && Colored(s.environments)
    modifies s
    ensures Unique(u, s.environments) && Colored(s.environments)
    ensures Performs(u, hash, old(s.environments), op, ok, s.environments)
  {
    var stored := s.environments;
    match op {
      case Create(title, color) =>
        var r := s.Create(u, hash, title, color);
        ok := r.Ok?;
      case Update(id, patch) =>
        var r := s.Update(u, hash, id, patch);
        ok := r.Ok?;
        if ok { PatchedIsColored(u, hash, stored[IndexOf(stored, id)], patch); }
      case Delete(id) =>
        var r := s.Delete(id);
        ok := r.Ok?;
        if ok { assert Removes(stored, id, s.environments); }
    }
    if !ok {
      s.environments := stored;
    }
  }

  /** The lists a run goes through. */
  ghost predicate Goes(u: Unicode, hash: string -> nat, trace: seq<seq<Environment>>, operations: seq<Operation>, results: seq<bool>) {
    && |trace| == |results| + 1 && |results| <= |operations|
    && (forall i | 0 <= i < |trace| :: Unique(u, trace[i]))
    && forall i | 0 <= i < |results| :: Performs(u, hash, trace[i], operations[i], results[i], trace[i + 1])
  }

  ghost predicate Deleted(operations: seq<Operation>, results: seq<bool>, id: string) {
    exists i :: 0 <= i < |results| && i < |operations| && results[i] && operations[i] == Delete(id)
  }

  /** Over a whole run an id is there to the end unless it was deleted. */
  lemma {:induction false} StaysUnlessDeleted(u: Unicode, hash: string -> nat, trace: seq<seq<Environment>>, operations: seq<Operation>, results: seq<bool>, id: string, n: nat)
    requires Goes(u, hash, trace, operations, results) && n <= |results| && id in Ids(trace[0])
    requires !Deleted(operations, results, id)
    ensures id in Ids(trace[n])
    decreases n
  {
    if n > 0 {
      StaysUnlessDeleted(u, hash, trace, operations, results, id, n - 1);
      OnlyDeletedDisappears(u, hash, trace[n - 1], operations[n - 1], results[n - 1], trace[n]);
      assert !(results[n - 1] && operations[n - 1] == Delete(id));
      assert id !in Ids(trace[n - 1]) - Ids(trace[n]);
    }
  }

  /** An environment no operation names is the same to the end. */
  lemma {:induction false} StaysUnlessNamed(u: Unicode, hash: string -> nat, trace: seq<seq<Environment>>, operations: seq<Operation>, results: seq<bool>, e: Environment, n: nat)
    requires Goes(u, hash, trace, operations, results) && n <= |results| && e in trace[0]
    requires Unnamed(operations, e.id)
    ensures e in trace[n]
    decreases n
  {
    if n > 0 {
      StaysUnlessNamed(u, hash, trace, operations, results, e, n - 1);
      OnlyDeletedDisappears(u, hash, trace[n - 1], operations[n - 1], results[n - 1], trace[n]);
    }
  }

  /**
   Main result: any operations keep ids and folded titles unique and colors in the palette, each does
   what it says or nothing, and an environment disappears only if it was deleted.
   */
  method Perform(s: Setting, u: Unicode, hash: string -> nat, operations: seq<Operation>)
      returns (results: seq<bool>, ghost trace: seq<seq<Environment>>)
    requires Unique(u, s.environments) && Colored(s.environments)
    modifies s
    ensures Unique(u, s.environments) && Colored(s.environments)
    ensures Goes(u, hash, trace, operations, results) && |results| == |operations|
    ensures trace[0] == old(s.environments) && trace[|operations|] == s.environments
    ensures forall id | id in Ids(old(s.environments)) && !Deleted(operations, results, id) :: id in Ids(s.environments)
    ensures forall e | e in old(s.environments) && Unnamed(operations, e.id) :: e in s.environments
  {
    ghost var start := s.environments;
    results, trace := [], [start];
    for i := 0 to |operations|
      invariant Unique(u, s.environments) && Colored(s.environments)
      invariant Goes(u, hash, trace, operations, results) && |results| == i
      invariant trace[0] == start && trace[i] == s.environments
    {
      var ok := Mutate(s, u, hash, operations[i]);
      results, trace := results + [ok], trace + [s.environments];
    }
    forall id | id in Ids(start) && !Deleted(operations, results, id) ensures id in Ids(s.environments) {
      StaysUnlessDeleted(u, hash, trace, operations, results, id, |operations|);
    }
    forall e | e in start && Unnamed(operations, e.id) ensures e in s.environments {
      StaysUnlessNamed(u, hash, trace, operations, results, e, |operations|);
    }
  }
}
