/**
 The workspace IAM policy: patching one member's roles edits the bindings in place, and no writer can
 bind the allUsers pseudo-member to anything but the baseline role.
 */
module IamPolicy {
  import opened Ordering

  datatype Binding = Binding(role: string, members: seq<string>, condition: string)

  const ALL_USERS := "allUsers"
  const ALL_USERS_BASELINE_ROLE := "roles/workspaceMember"

  // ----- Members -----

  /** slices.Delete of the first occurrence, if there is one. */
  function WithoutFirst(members: seq<string>, member: string): seq<string> {
    if members == [] then []
    else if members[0] == member then members[1..]
    else [members[0]] + WithoutFirst(members[1..], member)
  }

  function WithMember(members: seq<string>, member: string): seq<string> {
    if member in members then members else members + [member]
  }

  function Others(members: seq<string>, member: string): seq<string> {
    if members == [] then []
    else (if members[0] == member then [] else [members[0]]) + Others(members[1..], member)
  }

  function Count(members: seq<string>, member: string): nat {
    if members == [] then 0 else (if members[0] == member then 1 else 0) + Count(members[1..], member)
  }

  // ----- The patched bindings -----

  /** The binding that carries a requested role: the first of that role. */
  predicate Grants(bindings: seq<Binding>, i: nat, roles: seq<string>)
    requires i < |bindings|
  {
    bindings[i].role in roles && forall j | 0 <= j < i :: bindings[j].role != bindings[i].role
  }

  function PatchedBinding(bindings: seq<Binding>, i: nat, member: string, roles: seq<string>): Binding
    requires i < |bindings|
  {
    var binding := bindings[i];
    binding.(members := if Grants(bindings, i, roles) then WithMember(binding.members, member)
                        else WithoutFirst(binding.members, member))
  }

  function RolesOf(bindings: seq<Binding>): set<string> {
    set b | b in bindings :: b.role
  }

  /** The requested roles no binding carries, once each, in request order. */
  function Missing(roles: seq<string>, present: set<string>): seq<string> {
    if roles == [] then []
    else
      var before, last := Missing(roles[..|roles| - 1], present), roles[|roles| - 1];
      before + (if last in present || last in before then [] else [last])
  }

  function NewBindings(roles: seq<string>, member: string): seq<Binding> {
    seq(|roles|, i requires 0 <= i < |roles| => Binding(roles[i], [member], ""))
  }

  function Patched(bindings: seq<Binding>, member: string, roles: seq<string>): seq<Binding> {
    Edited(bindings, member, roles) + NewBindings(Missing(roles, RolesOf(bindings)), member)
  }

  function Edited(bindings: seq<Binding>, member: string, roles: seq<string>): seq<Binding> {
    seq(|bindings|, i requires 0 <= i < |bindings| => PatchedBinding(bindings, i, member, roles))
  }

  // ----- The allUsers rule -----

  /** checkAllUsersRole */
  predicate AllUsersRole(bindings: seq<Binding>) {
    forall b | b in bindings && ALL_USERS in b.members :: b.role == ALL_USERS_BASELINE_ROLE
  }

  /** CheckAllUsersBinding */
  predicate AllUsersBinding(bindings: seq<Binding>) {
    AllUsersRole(bindings) && exists b :: b in bindings && b.role == ALL_USERS_BASELINE_ROLE && ALL_USERS in b.members
  }

  datatype Outcome = Stored | Invalid | EtagMismatch

  class Policy {
    var bindings: seq<Binding>
    var etag: string

    constructor ()
      ensures bindings == [] && etag == ""
    {
      bindings, etag := [], "";
    }

    /** patchIamPolicyBindings */
    method PatchBindings(member: string, roles: seq<string>)
      modifies this`bindings
      ensures bindings == Patched(old(bindings), member, roles)
    {
      ghost var before := bindings;
      var pending := EditBindings(member, roles);
      AppendMissing(member, roles, pending, RolesOf(before));
    }

    /** Adds the member to the first binding of each requested role and takes it out of the others. */
    method EditBindings(member: string, roles: seq<string>) returns (pending: set<string>)
      modifies this`bindings
      ensures bindings == Edited(old(bindings), member, roles)
      ensures forall role :: role in pending <==> role in roles && role !in RolesOf(old(bindings))
    {
      ghost var before := bindings;
      pending := set role | role in roles;
      for i := 0 to |bindings|
        invariant PatchedSoFar(before, bindings, i, member, roles, pending)
      {
        var binding := bindings[i];
        if binding.role !in pending {
          if member in binding.members {
            bindings := bindings[i := binding.(members := WithoutFirst(binding.members, member))];
          } else {
            WithoutAbsent(binding.members, member);
          }
        } else if member !in binding.members {
          bindings := bindings[i := binding.(members := binding.members + [member])];
        }
        pending := pending - {binding.role};
      }
      assert before[..|before|] == before;
      assert bindings == Edited(before, member, roles);
    }

    /** Appends a binding for each role still pending, in request order. */
    method AppendMissing(member: string, roles: seq<string>, open: set<string>, ghost present: set<string>)
      requires forall role :: role in open <==> role in roles && role !in present
      modifies this`bindings
      ensures bindings == old(bindings) + NewBindings(Missing(roles, present), member)
    {
      var pending := open;
      ghost var edited, missing := bindings, [];
      for k := 0 to |roles|
        invariant missing == Missing(roles[..k], present)
        invariant bindings == edited + NewBindings(missing, member)
        invariant forall role :: role in pending <==> role in roles && role !in present && role !in missing
      {
        var role := roles[k];
        assert roles[..k + 1][..k] == roles[..k];
        if role !in pending {
          continue;
        }
        pending := pending - {role};
        bindings := bindings + [Binding(role, [member], "")];
        assert NewBindings(missing + [role], member) == NewBindings(missing, member) + [Binding(role, [member], "")];
        missing := missing + [role];
      }
      assert roles[..|roles|] == roles;
    }

    /** patchWorkspaceIamPolicyImpl: the result is checked as a whole before it is stored. */
    method Patch(member: string, roles: seq<string>, newEtag: string) returns (outcome: Outcome)
      modifies this
      ensures outcome == if AllUsersRole(Patched(old(bindings), member, roles)) then Stored else Invalid
      ensures outcome == Stored ==> bindings == Patched(old(bindings), member, roles) && etag == newEtag
      ensures outcome != Stored ==> bindings == old(bindings) && etag == old(etag)
      ensures old(AllUsersRole(bindings)) ==> AllUsersRole(bindings)
    {
      var stored := bindings;
      PatchBindings(member, roles);
      if !AllUsersRole(bindings) {
        bindings := stored;
        return Invalid;
      }
      etag, outcome := newEtag, Stored;
    }

    /** SetWorkspaceIamPolicy: an empty etag skips the check. */
    method Set(replacement: seq<Binding>, provided: string, newEtag: string) returns (outcome: Outcome)
      modifies this
      ensures outcome == if !AllUsersBinding(replacement) then Invalid
                         else if provided != "" && provided != old(etag) then EtagMismatch
                         else Stored
      ensures outcome == Stored ==> bindings == replacement && etag == newEtag
      ensures outcome != Stored ==> bindings == old(bindings) && etag == old(etag)
      ensures outcome == Stored ==> AllUsersBinding(bindings)
      ensures outcome != Invalid <==>
                && (forall b | b in replacement && "allUsers" in b.members :: b.role == "roles/workspaceMember")
                && (exists b :: b in replacement && "allUsers" in b.members && b.role == "roles/workspaceMember")
      ensures old(AllUsersRole(bindings)) ==> AllUsersRole(bindings)
    {
      if !AllUsersBinding(replacement) {
        return Invalid;
      }
      if provided != "" && provided != etag {
        return EtagMismatch;
      }
      bindings, etag, outcome := replacement, newEtag, Stored;
    }
  }

  // ----- The patch loop -----

  ghost predicate PatchedSoFar(before: seq<Binding>, now: seq<Binding>, n: nat, member: string, roles: seq<string>, pending: set<string>) {
    && n <= |before| == |now|
    && (forall j | 0 <= j < |before| :: now[j] == if j < n then PatchedBinding(before, j, member, roles) else before[j])
    && (forall role :: role in pending <==> role in roles && role !in RolesOf(before[..n]))
  }

  lemma {:induction false} WithoutAbsent(members: seq<string>, member: string)
    requires member !in members
    ensures WithoutFirst(members, member) == members
  {
    if members != [] {
      WithoutAbsent(members[1..], member);
      assert members == [members[0]] + members[1..];
    }
  }

  // ----- What the patch comes to -----

  lemma {:induction false} CountIsMembership(members: seq<string>, member: string)
    ensures Count(members, member) > 0 <==> member in members
  {
    if members != [] {
      CountIsMembership(members[1..], member);
      assert members == [members[0]] + members[1..];
    }
  }

  lemma {:induction false} WithoutFirstCounts(members: seq<string>, member: string)
    ensures Count(WithoutFirst(members, member), member) == if member in members then Count(members, member) - 1 else 0
    ensures Others(WithoutFirst(members, member), member) == Others(members, member)
  {
    CountIsMembership(members, member);
    if members != [] {
      assert members == [members[0]] + members[1..];
      if members[0] != member {
        WithoutFirstCounts(members[1..], member);
        assert ([members[0]] + WithoutFirst(members[1..], member))[1..] == WithoutFirst(members[1..], member);
      }
    }
  }

  lemma {:induction false} OthersAppend(members: seq<string>, member: string)
    ensures Others(members + [member], member) == Others(members, member)
  {
    if members != [] {
      assert (members + [member])[1..] == members[1..] + [member];
      OthersAppend(members[1..], member);
    }
  }

  lemma {:induction false} MissingRoles(roles: seq<string>, present: set<string>)
    ensures forall role :: role in Missing(roles, present) <==> role in roles && role !in present
    ensures NoRepeats(Missing(roles, present))
  {
    if roles != [] {
      assert roles == roles[..|roles| - 1] + [roles[|roles| - 1]];
      MissingRoles(roles[..|roles| - 1], present);
    }
  }

  /** Bindings that stay keep their place, their role and every other member. */
  lemma PatchKeepsOthers(bindings: seq<Binding>, member: string, roles: seq<string>, i: nat)
    requires i < |bindings|
    ensures |bindings| <= |Patched(bindings, member, roles)|
    ensures Patched(bindings, member, roles)[i].role == bindings[i].role
    ensures Patched(bindings, member, roles)[i].condition == bindings[i].condition
    ensures Others(Patched(bindings, member, roles)[i].members, member) == Others(bindings[i].members, member)
  {
    WithoutFirstCounts(bindings[i].members, member);
    OthersAppend(bindings[i].members, member);
  }

  /** The binding that holds the member for a requested role. */
  function HolderOf(bindings: seq<Binding>, role: string): (i: nat)
    requires role in RolesOf(bindings)
    ensures i < |bindings| && bindings[i].role == role && forall j | 0 <= j < i :: bindings[j].role != role
  {
    if bindings[0].role == role then 0
    else
      assert bindings == [bindings[0]] + bindings[1..];
      1 + HolderOf(bindings[1..], role)
  }

  /** Binding `i` holds the member for a requested role. */
  ghost predicate Holds(bindings: seq<Binding>, i: int, member: string, role: string) {
    0 <= i < |bindings| && bindings[i].role == role && member in bindings[i].members
  }

  /** The bindings the patch takes the member out of do not list it twice. */
  ghost predicate ListedOnce(bindings: seq<Binding>, member: string, roles: seq<string>) {
    forall i | 0 <= i < |bindings| && !Grants(bindings, i, roles) :: Count(bindings[i].members, member) <= 1
  }

  /** The member is in one binding of each requested role and in no other. */
  ghost predicate ExactlyGranted(bindings: seq<Binding>, member: string, roles: seq<string>) {
    && (forall role | role in roles :: exists i :: Holds(bindings, i, member, role))
    && (forall i, j, role | Holds(bindings, i, member, role) && Holds(bindings, j, member, role) :: i == j)
    && (forall i | 0 <= i < |bindings| && member in bindings[i].members :: bindings[i].role in roles)
  }

  lemma PatchedMember(bindings: seq<Binding>, member: string, roles: seq<string>, i: nat)
    requires i < |Patched(bindings, member, roles)|
    ensures i < |bindings| ==> (member in Patched(bindings, member, roles)[i].members <==>
                                Grants(bindings, i, roles) || Count(bindings[i].members, member) >= 2)
    ensures i >= |bindings| ==> member in Patched(bindings, member, roles)[i].members &&
                                Patched(bindings, member, roles)[i].role in roles &&
                                Patched(bindings, member, roles)[i].role !in RolesOf(bindings)
  {
    MissingRoles(roles, RolesOf(bindings));
    if i < |bindings| {
      WithoutFirstCounts(bindings[i].members, member);
      CountIsMembership(bindings[i].members, member);
      CountIsMembership(WithoutFirst(bindings[i].members, member), member);
    } else {
      var role := Missing(roles, RolesOf(bindings))[i - |bindings|];
      assert role in Missing(roles, RolesOf(bindings));
    }
  }

  lemma GrantedSomewhere(bindings: seq<Binding>, member: string, roles: seq<string>, role: string)
    requires role in roles
    ensures exists i :: Holds(Patched(bindings, member, roles), i, member, role)
  {
    MissingRoles(roles, RolesOf(bindings));
    if role in RolesOf(bindings) {
      var i := HolderOf(bindings, role);
      PatchedMember(bindings, member, roles, i);
      assert Holds(Patched(bindings, member, roles), i, member, role);
    } else {
      var missing := Missing(roles, RolesOf(bindings));
      var k :| 0 <= k < |missing| && missing[k] == role;
      assert Holds(Patched(bindings, member, roles), |bindings| + k, member, role);
    }
  }

  lemma GrantedOnce(bindings: seq<Binding>, member: string, roles: seq<string>, i: nat, j: nat, role: string)
    requires ListedOnce(bindings, member, roles) && i <= j
    requires Holds(Patched(bindings, member, roles), i, member, role) && Holds(Patched(bindings, member, roles), j, member, role)
    ensures i == j
  {
    PatchedMember(bindings, member, roles, i);
    PatchedMember(bindings, member, roles, j);
    if i < |bindings| {
      assert bindings[i] in bindings;
      assert Grants(bindings, i, roles);
      assert j < |bindings| ==> Grants(bindings, j, roles);
    } else {
      MissingRoles(roles, RolesOf(bindings));
    }
  }

  /** Main result: the patch grants exactly the requested roles, as long as what it revokes is not listed twice. */
  lemma PatchGrantsExactly(bindings: seq<Binding>, member: string, roles: seq<string>)
    ensures ExactlyGranted(Patched(bindings, member, roles), member, roles) <==> ListedOnce(bindings, member, roles)
  {
    var patched := Patched(bindings, member, roles);
    forall role | role in roles ensures exists i :: Holds(patched, i, member, role) {
      GrantedSomewhere(bindings, member, roles, role);
    }
    if ListedOnce(bindings, member, roles) {
      forall i, j, role | Holds(patched, i, member, role) && Holds(patched, j, member, role) ensures i == j {
        GrantedOnce(bindings, member, roles, if i < j then i else j, if i < j then j else i, role);
      }
      forall i | 0 <= i < |patched| && member in patched[i].members ensures patched[i].role in roles {
        PatchedMember(bindings, member, roles, i);
      }
    } else {
      var i :| 0 <= i < |bindings| && !Grants(bindings, i, roles) && Count(bindings[i].members, member) > 1;
      PatchedMember(bindings, member, roles, i);
      if patched[i].role in roles {
        assert bindings[i] in bindings;
        var k := HolderOf(bindings, bindings[i].role);
        PatchedMember(bindings, member, roles, k);
        assert Holds(patched, i, member, bindings[i].role) && Holds(patched, k, member, bindings[i].role);
      }
    }
  }

  lemma GrantsTheSame(bindings: seq<Binding>, member: string, roles: seq<string>, i: nat)
    requires i < |bindings|
    ensures Grants(Patched(bindings, member, roles), i, roles) <==> Grants(bindings, i, roles)
  {
    assert forall j | 0 <= j <= i :: Patched(bindings, member, roles)[j].role == bindings[j].role;
  }

  lemma PatchedBindingStays(bindings: seq<Binding>, member: string, roles: seq<string>, i: nat)
    requires ListedOnce(bindings, member, roles) && i < |Patched(bindings, member, roles)|
    ensures PatchedBinding(Patched(bindings, member, roles), i, member, roles) == Patched(bindings, member, roles)[i]
  {
    var once := Patched(bindings, member, roles);
    PatchedMember(bindings, member, roles, i);
    if member !in once[i].members {
      WithoutAbsent(once[i].members, member);
      GrantsTheSame(bindings, member, roles, i);
    } else if i < |bindings| {
      GrantsTheSame(bindings, member, roles, i);
    } else {
      NewRoleGrants(bindings, member, roles, i);
    }
  }

  lemma NothingMissing(bindings: seq<Binding>, member: string, roles: seq<string>)
    ensures Missing(roles, RolesOf(Patched(bindings, member, roles))) == []
  {
    var once := Patched(bindings, member, roles);
    var missing := Missing(roles, RolesOf(once));
    MissingRoles(roles, RolesOf(once));
    forall role | role in roles ensures role in RolesOf(once) {
      GrantedSomewhere(bindings, member, roles, role);
      var i :| Holds(once, i, member, role);
      assert once[i] in once;
    }
    forall role ensures multiset(missing)[role] == 0 {
      assert role !in missing;
    }
    assert multiset(missing) == multiset{};
    assert |missing| == |multiset(missing)|;
  }

  /** Patching twice is patching once. */
  lemma PatchIsIdempotent(bindings: seq<Binding>, member: string, roles: seq<string>)
    requires ListedOnce(bindings, member, roles)
    ensures Patched(Patched(bindings, member, roles), member, roles) == Patched(bindings, member, roles)
  {
    var once := Patched(bindings, member, roles);
    NothingMissing(bindings, member, roles);
    forall i | 0 <= i < |once| ensures PatchedBinding(once, i, member, roles) == once[i] {
      PatchedBindingStays(bindings, member, roles, i);
    }
    assert Edited(once, member, roles) == once;
  }

  lemma NewRoleGrants(bindings: seq<Binding>, member: string, roles: seq<string>, i: nat)
    requires |bindings| <= i < |Patched(bindings, member, roles)|
    ensures Grants(Patched(bindings, member, roles), i, roles)
  {
    var once := Patched(bindings, member, roles);
    MissingRoles(roles, RolesOf(bindings));
    PatchedMember(bindings, member, roles, i);
    forall j | 0 <= j < i ensures once[j].role != once[i].role {
      if j < |bindings| { assert bindings[j] in bindings; }
    }
  }

  // ----- allUsers -----

  /** A policy that keeps the rule is refused a patch exactly when that would bind allUsers to another role. */
  lemma PatchRefusedExactly(bindings: seq<Binding>, member: string, roles: seq<string>)
    requires AllUsersRole(bindings)
    ensures !AllUsersRole(Patched(bindings, member, roles)) <==>
            member == "allUsers" && exists role :: role in roles && role != "roles/workspaceMember"
  {
    var patched := Patched(bindings, member, roles);
    if member == ALL_USERS && exists role :: role in roles && role != ALL_USERS_BASELINE_ROLE {
      var role :| role in roles && role != ALL_USERS_BASELINE_ROLE;
      GrantedSomewhere(bindings, member, roles, role);
      var i :| Holds(patched, i, member, role);
      assert patched[i] in patched;
    } else {
      forall b | b in patched && ALL_USERS in b.members ensures b.role == ALL_USERS_BASELINE_ROLE {
        var i :| 0 <= i < |patched| && patched[i] == b;
        PatchedMember(bindings, member, roles, i);
        if member == ALL_USERS {
          if i < |bindings| { CountIsMembership(bindings[i].members, member); assert bindings[i] in bindings; }
        } else if i < |bindings| {
          PatchKeepsOthers(bindings, member, roles, i);
          OtherMember(b.members, member, ALL_USERS);
          OtherMember(bindings[i].members, member, ALL_USERS);
          assert bindings[i] in bindings;
        }
      }
    }
  }

  lemma {:induction false} OtherMember(members: seq<string>, member: string, other: string)
    requires member != other
    ensures other in members <==> other in Others(members, member)
  {
    if members != [] {
      assert members == [members[0]] + members[1..];
      OtherMember(members[1..], member, other);
    }
  }
}
