/**
 * Identities derived from the deployment name and project: the three
 * service accounts the deployment owns and the account string used for IAP.
 */
module Identity {
  import opened Strs

  /** Marker that `getIapAccount` looks for in an email. */
  const ServiceAccountDomain := "iam.gserviceaccount.com"

  /** `getSA`: `{name}-{suffix}@{project}.iam.gserviceaccount.com`. */
  function ServiceAccount(name: string, suffix: string, project: string): (email: string)
    ensures Contains(email, ServiceAccountDomain)
  {
    var email := name + "-" + suffix + "@" + project + "." + ServiceAccountDomain;
    ContainsIff(ServiceAccountDomain, ServiceAccountDomain);
    assert OccursAt(ServiceAccountDomain, ServiceAccountDomain, 0);
    ContainsInSuffix(name + "-" + suffix + "@" + project + ".", ServiceAccountDomain, ServiceAccountDomain);
    email
  }

  /** `getIapAccount`: a service-account email gets `serviceAccount:`, anything else `user:`. */
  function IapAccount(email: string): (acct: string)
    ensures acct == "serviceAccount:" + email <==> Contains(email, ServiceAccountDomain)
    ensures acct == "user:" + email <==> !Contains(email, ServiceAccountDomain)
  {
    if Contains(email, ServiceAccountDomain) then "serviceAccount:" + email else "user:" + email
  }

  /** A policy member naming one of the deployment's service accounts. */
  function OwnedMember(name: string, suffix: string, project: string): string
  {
    "serviceAccount:" + ServiceAccount(name, suffix, project)
  }

  /** The members that `Delete` strips: the admin, user and vm service accounts. */
  function OwnedMembers(name: string, project: string): set<string>
  {
    {OwnedMember(name, "admin", project), OwnedMember(name, "user", project), OwnedMember(name, "vm", project)}
  }

  /** When the IAP email is itself a service account, it is rendered as `serviceAccount:`. */
  lemma IapAccountOfServiceAccount(name: string, suffix: string, project: string)
    ensures IapAccount(ServiceAccount(name, suffix, project)) == OwnedMember(name, suffix, project)
  {
  }

  /** The three owned members are pairwise distinct, so `OwnedMembers` has exactly three. */
  lemma {:induction false} OwnedMembersDistinct(name: string, project: string)
    ensures |OwnedMembers(name, project)| == 3
  {
    var a, u, v := OwnedMember(name, "admin", project), OwnedMember(name, "user", project),
                   OwnedMember(name, "vm", project);
    assert |a| == |u| + 1 && |u| == |v| + 2;
    assert {a, u, v} == {a} + {u} + {v};
  }
}
