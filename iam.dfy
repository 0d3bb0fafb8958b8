/**
 * The two IAM policy member rewrites in `gcp.go`: the placeholder substitution
 * of `writeIamBindingsFile` and the removal of the deployment's own service
 * accounts that `Delete` performs on the live policy.
 */
module Iam {
  import opened Util
  import opened Identity

  /** A binding of the live policy: a role and its members. */
  datatype Binding = Binding(role: string, members: seq<string>)

  // ---------------------------------------------------------------------------
  // Member removal in `Delete`

  /** The members of `ms` that are not in `drop`, in their original order. */
  function Strip(ms: seq<string>, drop: set<string>): seq<string>
    decreases |ms|
  {
    if ms == [] then []
    else Strip(ms[..|ms| - 1], drop) + (if ms[|ms| - 1] in drop then [] else [ms[|ms| - 1]])
  }

  /** No dropped member survives, and every other member keeps its multiplicity. */
  lemma {:induction false} StripSpec(ms: seq<string>, drop: set<string>)
    ensures forall m :: m in Strip(ms, drop) ==> m in ms && m !in drop
    ensures forall m :: m !in drop ==> multiset(Strip(ms, drop))[m] == multiset(ms)[m]
    decreases |ms|
  {
    if ms != [] {
      var init, last := ms[..|ms| - 1], ms[|ms| - 1];
      assert ms == init + [last];
      StripSpec(init, drop);
    }
  }

  /** Removal distributes over concatenation, which is what "in order" means. */
  lemma {:induction false} StripAppend(a: seq<string>, b: seq<string>, drop: set<string>)
    ensures Strip(a + b, drop) == Strip(a, drop) + Strip(b, drop)
    decreases |b|
  {
    if b == [] {
      assert a + b == a;
    } else {
      var init, last := b[..|b| - 1], b[|b| - 1];
      var ab := a + b;
      assert ab[..|ab| - 1] == a + init;
      assert ab[|ab| - 1] == last;
      assert Strip(ab, drop) == Strip(a + init, drop) + (if last in drop then [] else [last]);
      StripAppend(a, init, drop);
    }
  }

  /** A list with nothing to remove is kept as it is. */
  lemma {:induction false} StripNothing(ms: seq<string>, drop: set<string>)
    requires forall m :: m in ms ==> m !in drop
    ensures Strip(ms, drop) == ms
    decreases |ms|
  {
    if ms != [] {
      StripNothing(ms[..|ms| - 1], drop);
      assert ms[..|ms| - 1] + [ms[|ms| - 1]] == ms;
    }
  }

  /** The inner loop of `Delete`: rebuilds `cleanedMembers` from `binding.Members`. */
  method CleanMembers(members: seq<string>, saSet: set<string>) returns (cleaned: seq<string>)
    ensures cleaned == Strip(members, saSet)
  {
    cleaned := [];
    var i := 0;
    while i < |members|
      invariant 0 <= i <= |members|
      invariant cleaned == Strip(members[..i], saSet)
    {
      assert members[..i + 1][..i] == members[..i];
      if members[i] !in saSet {
        cleaned := cleaned + [members[i]];
      }
      i := i + 1;
    }
    assert members[..|members|] == members;
  }

  /**
   * The outer loop of `Delete`: overwrites `policy.Bindings[idx].Members` with the
   * members that are not one of the deployment's service accounts.
   */
  method CleanPolicy(bindings: array<Binding>, saSet: set<string>)
    modifies bindings
    ensures forall i :: 0 <= i < bindings.Length ==>
              bindings[i] == old(bindings[i]).(members := Strip(old(bindings[i]).members, saSet))
  {
    var idx := 0;
    while idx < bindings.Length
      invariant 0 <= idx <= bindings.Length
      invariant forall i :: 0 <= i < idx ==>
                  bindings[i] == old(bindings[i]).(members := Strip(old(bindings[i]).members, saSet))
      invariant forall i :: idx <= i < bindings.Length ==> bindings[i] == old(bindings[i])
    {
      var cleaned := CleanMembers(bindings[idx].members, saSet);
      bindings[idx] := bindings[idx].(members := cleaned);
      idx := idx + 1;
    }
  }

  /** The policy after `CleanPolicy`, as a value. */
  function Cleaned(bindings: seq<Binding>, saSet: set<string>): seq<Binding>
  {
    seq(|bindings|, i requires 0 <= i < |bindings| => bindings[i].(members := Strip(bindings[i].members, saSet)))
  }

  /**
   * After the removal no binding names one of the three service accounts, every
   * other member keeps its multiplicity, and the roles and binding count stay.
   */
  lemma CleanedPolicy(bindings: seq<Binding>, name: string, project: string, i: nat, m: string)
    requires i < |bindings|
    ensures |Cleaned(bindings, OwnedMembers(name, project))| == |bindings|
    ensures Cleaned(bindings, OwnedMembers(name, project))[i].role == bindings[i].role
    ensures OwnedMember(name, "admin", project) !in Cleaned(bindings, OwnedMembers(name, project))[i].members
    ensures OwnedMember(name, "user", project) !in Cleaned(bindings, OwnedMembers(name, project))[i].members
    ensures OwnedMember(name, "vm", project) !in Cleaned(bindings, OwnedMembers(name, project))[i].members
    ensures m !in OwnedMembers(name, project) ==>
              multiset(Cleaned(bindings, OwnedMembers(name, project))[i].members)[m] ==
              multiset(bindings[i].members)[m]
  {
    StripSpec(bindings[i].members, OwnedMembers(name, project));
  }

  // ---------------------------------------------------------------------------
  // Placeholder substitution in `writeIamBindingsFile`

  /** A binding of the template: `members` may be missing from the YAML. */
  datatype TemplateBinding = TemplateBinding(role: string, members: Option<seq<string>>)

  /** The template document: `bindings` may be missing from the YAML. */
  datatype BindingsTemplate = BindingsTemplate(bindings: Option<seq<TemplateBinding>>)

  datatype TemplateError = NoBindingsEntry | NoMembersEntry

  /** The `roles` table of `writeIamBindingsFile`: placeholder to account. */
  function Placeholders(name: string, project: string, email: string): map<string, string>
  {
    map["set-kubeflow-admin-service-account" := OwnedMember(name, "admin", project),
        "set-kubeflow-user-service-account" := OwnedMember(name, "user", project),
        "set-kubeflow-vm-service-account" := OwnedMember(name, "vm", project),
        "set-kubeflow-iap-account" := IapAccount(email)]
  }

  /** What one member of the template becomes. */
  function Resolve(member: string, roles: map<string, string>): string
  {
    if member in roles then roles[member] else member
  }

  /** The inner loop: builds `newMembers`, one output member per input member. */
  method SubstituteMembers(members: seq<string>, roles: map<string, string>) returns (newMembers: seq<string>)
    ensures newMembers == ResolvedAll(members, roles)
    ensures |newMembers| == |members|
    ensures forall j :: 0 <= j < |members| && members[j] in roles ==> newMembers[j] == roles[members[j]]
    ensures forall j :: 0 <= j < |members| && members[j] !in roles ==> newMembers[j] == members[j]
  {
    newMembers := [];
    for i := 0 to |members|
      invariant |newMembers| == i
      invariant forall j :: 0 <= j < i ==> newMembers[j] == Resolve(members[j], roles)
    {
      if members[i] in roles {
        newMembers := newMembers + [roles[members[i]]];
      } else {
        newMembers := newMembers + [members[i]];
      }
    }
  }

  /** `after` is `before` with every member of it resolved. */
  ghost predicate Rewritten(before: TemplateBinding, after: TemplateBinding, roles: map<string, string>)
  {
    && before.members.Some? && after.members.Some?
    && after.role == before.role
    && |after.members.value| == |before.members.value|
    && forall j :: 0 <= j < |before.members.value| ==>
         after.members.value[j] == Resolve(before.members.value[j], roles)
  }

  /**
   * The rewrite of `writeIamBindingsFile` on the parsed template: fails when the
   * document has no `bindings` or a binding has no `members`; otherwise every
   * binding keeps its role and has its placeholders resolved.
   */
  method RewriteBindings(doc: BindingsTemplate, name: string, project: string, email: string)
    returns (r: Result<seq<TemplateBinding>, TemplateError>)
    ensures doc.bindings.None? ==> r == Err(NoBindingsEntry)
    ensures doc.bindings.Some? ==>
              (r.Err? <==> exists i :: 0 <= i < |doc.bindings.value| && doc.bindings.value[i].members.None?)
    ensures r.Err? ==> doc.bindings.Some? ==> r.error == NoMembersEntry
    ensures r.Ok? ==>
              && doc.bindings.Some?
              && |r.value| == |doc.bindings.value|
              && forall i :: 0 <= i < |r.value| ==>
                   Rewritten(doc.bindings.value[i], r.value[i], Placeholders(name, project, email))
  {
    if doc.bindings.None? {
      return Err(NoBindingsEntry);
    }
    var roles := Placeholders(name, project, email);
    var bindings := doc.bindings.value;
    var idx := 0;
    while idx < |bindings|
      invariant 0 <= idx <= |bindings| && |bindings| == |doc.bindings.value|
      invariant forall i :: 0 <= i < idx ==> Rewritten(doc.bindings.value[i], bindings[i], roles)
      invariant forall i :: idx <= i < |bindings| ==> bindings[i] == doc.bindings.value[i]
    {
      var binding := bindings[idx];
      if binding.members.None? {
        return Err(NoMembersEntry);
      }
      var newMembers := SubstituteMembers(binding.members.value, roles);
      bindings := bindings[idx := binding.(members := Some(newMembers))];
      idx := idx + 1;
    }
    return Ok(bindings);
  }

  /** The three service-account placeholders always resolve to members that `Delete` strips. */
  lemma PlaceholdersAreOwned(name: string, project: string, email: string, p: string)
    requires p in {"set-kubeflow-admin-service-account", "set-kubeflow-user-service-account",
                   "set-kubeflow-vm-service-account"}
    ensures Resolve(p, Placeholders(name, project, email)) in OwnedMembers(name, project)
  {
  }

  /**
   * Round trip: resolving a template's members and then stripping the owned
   * service accounts leaves none of them; what survives is a literal member of
   * the template or the IAP member, and every literal member that is neither a
   * placeholder nor owned survives.
   */
  lemma {:induction false} ResolveThenStrip(ms: seq<string>, name: string, project: string, email: string)
    ensures forall m :: m in Strip(ResolvedAll(ms, Placeholders(name, project, email)), OwnedMembers(name, project)) ==>
              m !in OwnedMembers(name, project)
    ensures forall m :: m in Strip(ResolvedAll(ms, Placeholders(name, project, email)), OwnedMembers(name, project)) ==>
              (m in ms && m !in Placeholders(name, project, email)) || m == IapAccount(email)
    ensures forall m :: m in ms && m !in Placeholders(name, project, email) && m !in OwnedMembers(name, project) ==>
              m in Strip(ResolvedAll(ms, Placeholders(name, project, email)), OwnedMembers(name, project))
  {
    var roles := Placeholders(name, project, email);
    var owned := OwnedMembers(name, project);
    var rs := ResolvedAll(ms, roles);
    StripSpec(rs, owned);
    forall m | m in Strip(rs, owned) ensures (m in ms && m !in roles) || m == IapAccount(email) {
      var j :| 0 <= j < |rs| && rs[j] == m;
      assert m == Resolve(ms[j], roles);
    }
    forall m | m in ms && m !in roles && m !in owned
      ensures m in Strip(rs, owned)
    {
      var j :| 0 <= j < |ms| && ms[j] == m;
      assert rs[j] == m;
      assert multiset(rs)[m] > 0;
    }
  }

  /** All members of `ms` resolved, position by position. */
  function ResolvedAll(ms: seq<string>, roles: map<string, string>): (r: seq<string>)
    ensures |r| == |ms|
  {
    seq(|ms|, j requires 0 <= j < |ms| => Resolve(ms[j], roles))
  }
}
