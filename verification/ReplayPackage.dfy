// Membership of a replay package: identity of its members, role cardinalities,
// and that acceptance fixes the package contents exactly.
module ReplayPackage {
  import opened CloudProgram
  import opened Outcomes
  import opened Sequences
  import opened Request

  datatype Member = Member(role: string, subject: string)

  const INPUT_ROLE := "input-ciphertext"
  const RESULT_ROLE := "producer-result-ciphertext"

  const SINGLETON_ROLES: seq<string> := [
    "authorization-receipt", "canonical-request", "case-binding", "consumed-ledger", "crypto-context",
    "direct-oracle", "evaluation-key-frame", "lane-binding", "preparation", "producer-result",
    "public-key", "secret-key", "structural-vector", "typed-oracle"]

  // ----- the identity key of a member -----

  function Key(m: Member): string { m.role + "\n" + m.subject }

  predicate PrintableMember(m: Member) {
    PrintableIdentifier(m.role) && PrintableIdentifier(m.subject)
  }

  // The joined key determines role and subject: no printable identifier has a line feed.
  lemma {:induction false} KeyInjective(a: Member, b: Member)
    requires PrintableMember(a) && PrintableMember(b) && Key(a) == Key(b)
    ensures a == b
  {
    var k := Key(a);
    assert k[|a.role|] == '\n' && k[|b.role|] == '\n';
    assert forall i | 0 <= i < |a.role| :: k[i] == a.role[i] && k[i] != '\n';
    assert forall i | 0 <= i < |b.role| :: k[i] == b.role[i] && k[i] != '\n';
    assert a.role == k[..|a.role|] && b.role == k[..|b.role|];
    assert a.subject == k[|a.role| + 1..] && b.subject == k[|b.role| + 1..];
  }

  ghost predicate PackageRead(members: seq<Member>) {
    && members != []
    && (forall i | 0 <= i < |members| :: PrintableMember(members[i]))
    && (forall i, j | 0 <= i < j < |members| :: members[i] != members[j])
  }

  // The reader's uniqueness check on joined keys is uniqueness of members.
  method ReadPackage(members: seq<Member>) returns (ok: bool)
    ensures ok <==> PackageRead(members)
  {
    hide Key, PrintableIdentifier;
    if members == [] {
      return false;
    }
    var rolesAndSubjects: set<string> := {};
    for k := 0 to |members|
      invariant forall i | 0 <= i < k :: PrintableMember(members[i])
      invariant forall i, j | 0 <= i < j < k :: members[i] != members[j]
      invariant forall key :: key in rolesAndSubjects <==> exists i :: 0 <= i < k && Key(members[i]) == key
    {
      if !PrintableMember(members[k]) {
        return false;
      }
      if Key(members[k]) in rolesAndSubjects {
        var i :| 0 <= i < k && Key(members[i]) == Key(members[k]);
        KeyInjective(members[i], members[k]);
        return false;
      }
      rolesAndSubjects := rolesAndSubjects + {Key(members[k])};
    }
    return true;
  }

  // ----- role cardinalities -----

  function CountRole(members: seq<Member>, role: string): nat {
    if members == [] then 0
    else
      CountRole(members[..|members| - 1], role) + if members[|members| - 1].role == role then 1 else 0
  }

  // The subjects under one role, in package order.
  function Subjects(members: seq<Member>, role: string): (s: seq<string>)
    ensures |s| == CountRole(members, role)
    ensures forall x :: x in s <==> Member(role, x) in members
  {
    if members == [] then []
    else
      var last, init := members[|members| - 1], members[..|members| - 1];
      assert members == init + [last];
      if last.role == role then Subjects(init, role) + [last.subject] else Subjects(init, role)
  }

  predicate KnownRole(role: string) {
    role in SINGLETON_ROLES || role == INPUT_ROLE || role == RESULT_ROLE
  }

  ghost predicate ReplayAccepted(members: seq<Member>, inputIds: seq<string>, resultIds: seq<string>) {
    && (forall m | m in members :: KnownRole(m.role))
    && (forall role | role in SINGLETON_ROLES :: CountRole(members, role) == 1)
    && (forall id | id in inputIds :: Member(INPUT_ROLE, id) in members)
    && (forall id | id in resultIds :: Member(RESULT_ROLE, id) in members)
    && CountRole(members, INPUT_ROLE) == |inputIds|
    && CountRole(members, RESULT_ROLE) == |resultIds|
  }

  method HasMember(members: seq<Member>, role: string, subject: string) returns (found: bool)
    ensures found <==> Member(role, subject) in members
  {
    for k := 0 to |members|
      invariant Member(role, subject) !in members[..k]
    {
      if members[k].role == role && members[k].subject == subject {
        return true;
      }
      assert members[..k + 1] == members[..k] + [members[k]];
    }
    assert members[..|members|] == members;
    return false;
  }

  method CountRoles(members: seq<Member>) returns (r: Option<map<string, nat>>)
    ensures r.Some? <==> forall m | m in members :: KnownRole(m.role)
    ensures r.Some? ==> forall role: string ::
      CountRole(members, role) == if role in r.value then r.value[role] else 0
  {
    hide KnownRole;
    var roleCounts: map<string, nat> := map[];
    for k := 0 to |members|
      invariant forall m | m in members[..k] :: KnownRole(m.role)
      invariant forall role: string ::
        CountRole(members[..k], role) == if role in roleCounts then roleCounts[role] else 0
    {
      var role := members[k].role;
      assert members[..k + 1] == members[..k] + [members[k]] && members[..k + 1][..k] == members[..k];
      assert members[k] in members;
      if !KnownRole(role) {
        return None;
      }
      roleCounts := roleCounts[role := (if role in roleCounts then roleCounts[role] else 0) + 1];
    }
    assert members[..|members|] == members;
    return Some(roleCounts);
  }

  // The replay's own checks: roles, singletons, one member per declared input and
  // result, and the two cardinalities.
  method CheckReplay(members: seq<Member>, inputIds: seq<string>, resultIds: seq<string>) returns (ok: bool)
    ensures ok <==> ReplayAccepted(members, inputIds, resultIds)
  {
    hide KnownRole;
    var roleCounts := CountRoles(members);
    if roleCounts.None? {
      return false;
    }
    var counts := roleCounts.value;
    for k := 0 to |SINGLETON_ROLES|
      invariant forall i | 0 <= i < k :: CountRole(members, SINGLETON_ROLES[i]) == 1
    {
      var role := SINGLETON_ROLES[k];
      if (if role in counts then counts[role] else 0) != 1 {
        return false;
      }
    }
    for k := 0 to |inputIds|
      invariant forall i | 0 <= i < k :: Member(INPUT_ROLE, inputIds[i]) in members
    {
      var found := HasMember(members, INPUT_ROLE, inputIds[k]);
      if !found {
        return false;
      }
    }
    for k := 0 to |resultIds|
      invariant forall i | 0 <= i < k :: Member(RESULT_ROLE, resultIds[i]) in members
    {
      var found := HasMember(members, RESULT_ROLE, resultIds[k]);
      if !found {
        return false;
      }
    }
    return (if INPUT_ROLE in counts then counts[INPUT_ROLE] else 0) == |inputIds|
        && (if RESULT_ROLE in counts then counts[RESULT_ROLE] else 0) == |resultIds|;
  }

  // ----- acceptance fixes the contents -----

  lemma {:induction false} SubjectsDistinct(members: seq<Member>, role: string)
    requires forall i, j | 0 <= i < j < |members| :: members[i] != members[j]
    ensures NoRepeat(Subjects(members, role))
  {
    if members != [] {
      var init, last := members[..|members| - 1], members[|members| - 1];
      SubjectsDistinct(init, role);
      assert forall m | m in init :: m != last;
    }
  }

  // With distinct declared ids, the subjects of a role are exactly those ids.
  lemma {:induction false} SubjectsAreIds(members: seq<Member>, role: string, ids: seq<string>)
    requires PackageRead(members) && NoRepeat(ids)
    requires forall id | id in ids :: Member(role, id) in members
    requires CountRole(members, role) == |ids|
    ensures forall subject :: Member(role, subject) in members <==> subject in ids
  {
    var subjects := Subjects(members, role);
    SubjectsDistinct(members, role);
    SizeOfSet(subjects);
    SizeOfSet(ids);
    SubsetOfSameSize(ToSet(ids), ToSet(subjects));
    forall subject ensures Member(role, subject) in members <==> subject in ids {
      assert subject in subjects <==> subject in ToSet(subjects);
      assert subject in ids <==> subject in ToSet(ids);
    }
  }

  function TotalOver(members: seq<Member>, roles: seq<string>): nat {
    if roles == [] then 0 else TotalOver(members, roles[..|roles| - 1]) + CountRole(members, roles[|roles| - 1])
  }

  lemma {:induction false} TotalOfNothing(roles: seq<string>)
    ensures TotalOver([], roles) == 0
  {
    if roles != [] {
      TotalOfNothing(roles[..|roles| - 1]);
    }
  }

  lemma {:induction false} TotalGrows(members: seq<Member>, m: Member, roles: seq<string>)
    requires NoRepeat(roles)
    ensures TotalOver(members + [m], roles) == TotalOver(members, roles) + if m.role in roles then 1 else 0
  {
    if roles != [] {
      var init, last := roles[..|roles| - 1], roles[|roles| - 1];
      TotalGrows(members, m, init);
      assert (members + [m])[..|members|] == members;
      assert roles == init + [last];
    }
  }

  // Distinct roles that cover the package partition it.
  lemma {:induction false} RolesPartition(members: seq<Member>, roles: seq<string>)
    requires NoRepeat(roles) && forall m | m in members :: m.role in roles
    ensures TotalOver(members, roles) == |members|
  {
    if members == [] {
      TotalOfNothing(roles);
    } else {
      var init, last := members[..|members| - 1], members[|members| - 1];
      RolesPartition(init, roles);
      assert members == init + [last];
      TotalGrows(init, last, roles);
    }
  }

  lemma {:induction false} TotalOfSingles(members: seq<Member>, roles: seq<string>)
    requires forall role | role in roles :: CountRole(members, role) == 1
    ensures TotalOver(members, roles) == |roles|
  {
    if roles != [] {
      assert roles[|roles| - 1] in roles;
      TotalOfSingles(members, roles[..|roles| - 1]);
    }
  }

  lemma {:induction false} RolesDistinct()
    ensures NoRepeat(SINGLETON_ROLES + [INPUT_ROLE] + [RESULT_ROLE])
  {
    var roles := SINGLETON_ROLES + [INPUT_ROLE] + [RESULT_ROLE];
    assert forall i | 0 <= i < |roles| :: roles[i] == AllRoles(i);
    forall i, j | 0 <= i < j < |roles| ensures roles[i] != roles[j] {
      RolesDiffer(i, j);
    }
  }

  function AllRoles(i: nat): string
    requires i < 16
  {
    if i < 14 then SINGLETON_ROLES[i] else if i == 14 then INPUT_ROLE else RESULT_ROLE
  }

  function CharAt(s: string, i: nat): char { if i < |s| then s[i] else ' ' }

  // The first characters, or the lengths, tell the sixteen roles apart.
  lemma {:induction false} RolesDiffer(i: nat, j: nat)
    requires i < j < 16
    ensures AllRoles(i) != AllRoles(j)
  {
    assert (|AllRoles(i)|, CharAt(AllRoles(i), 0), CharAt(AllRoles(i), 1))
        != (|AllRoles(j)|, CharAt(AllRoles(j), 0), CharAt(AllRoles(j), 1));
  }

  // An accepted package holds exactly one member per singleton role, per declared
  // input and per result, and nothing else.
  lemma {:induction false} AcceptedPackageIsExact(members: seq<Member>, inputIds: seq<string>, resultIds: seq<string>)
    requires PackageRead(members) && ReplayAccepted(members, inputIds, resultIds)
    requires NoRepeat(inputIds) && NoRepeat(resultIds)
    ensures forall subject :: Member(INPUT_ROLE, subject) in members <==> subject in inputIds
    ensures forall subject :: Member(RESULT_ROLE, subject) in members <==> subject in resultIds
    ensures |members| == 14 + |inputIds| + |resultIds|
  {
    hide CountRole, PrintableMember;
    SubjectsAreIds(members, INPUT_ROLE, inputIds);
    SubjectsAreIds(members, RESULT_ROLE, resultIds);
    var roles := SINGLETON_ROLES + [INPUT_ROLE] + [RESULT_ROLE];
    RolesDistinct();
    RolesPartition(members, roles);
    TotalOfSingles(members, SINGLETON_ROLES);
    assert roles[..15] == SINGLETON_ROLES + [INPUT_ROLE] && roles[..15][..14] == SINGLETON_ROLES;
  }

  // ----- where the distinctness comes from -----

  // The results a successful run returns are pairwise distinct identifiers.
  lemma {:induction false} ReturnedDistinct(env: Env, st: State, nodes: seq<Node>)
    requires Run(env, st, nodes).Success? && NoRepeat(st.returned)
    requires forall id | id in st.returned :: id in st.identifiers
    ensures NoRepeat(Run(env, st, nodes).value.returned)
    decreases |nodes|
  {
    if nodes != [] {
      hide Evaluate;
      ReturnedDistinct(env, Step(env, st, nodes[0]).value, nodes[1..]);
    }
  }

  // End to end: parsed inputs, a successful run whose results are the declared
  // ones, and both package checks leave exactly one possible package inventory.
  lemma {:induction false} AcceptedReplayIsExact(
    env: Env, st: State, nodes: seq<Node>, raw: seq<RawInput>, slotCount: nat,
    members: seq<Member>, inputIds: seq<string>, resultIds: seq<string>)
    requires AcceptableInputs(raw, slotCount) && |inputIds| == |raw|
    requires forall i | 0 <= i < |raw| :: inputIds[i] == raw[i].id
    requires st.returned == [] && Run(env, st, nodes).Success? && Run(env, st, nodes).value.returned == resultIds
    requires PackageRead(members) && ReplayAccepted(members, inputIds, resultIds)
    ensures forall subject :: Member(INPUT_ROLE, subject) in members <==> subject in inputIds
    ensures forall subject :: Member(RESULT_ROLE, subject) in members <==> subject in resultIds
    ensures |members| == 14 + |inputIds| + |resultIds|
  {
    hide Run, ReplayAccepted, PackageRead, AcceptableInputs;
    forall i, j | 0 <= i < j < |inputIds| ensures inputIds[i] != inputIds[j] {
      AcceptedIdsDistinct(raw, slotCount, i, j);
    }
    ReturnedDistinct(env, st, nodes);
    AcceptedPackageIsExact(members, inputIds, resultIds);
  }
}
