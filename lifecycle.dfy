/**
 * The workflows that sequence the Deployment Manager calls: the deployment
 * part of `updateDM` (called by `Apply`) and `Delete`, which removes the
 * deployments and then strips the application's service accounts from the
 * project's IAM policy.
 */
module Lifecycle {
  import opened Util
  import opened Strs
  import opened Poller
  import opened Deployment
  import opened Identity
  import opened Iam

  // ---------------------------------------------------------------------------
  // updateDM

  /**
   * What `generateTarget` reads: the app directory, the working directory that
   * makes a relative path absolute, the readable files and the YAML parser.
   */
  datatype Workspace = Workspace(appDir: string, cwd: string, files: map<string, string>,
                                 parse: string -> Option<ConfigDoc>)

  /** The provider's answers to `updateDeployment` for one group. */
  datatype GroupInputs = GroupInputs(get: Result<DeploymentInfo, ApiError>,
                                     submit: Result<string, ApiError>, polls: seq<Observation>)

  const GcpConfigDir := "gcp_config"

  /** `filepath.Join(path.Join(appDir, "gcp_config"), yamlfile)`. */
  function GroupConfigPath(appDir: string, g: Group): string
  {
    Join(Join(appDir, GcpConfigDir), ConfigFile(g))
  }

  /** The path `updateDM` and `Delete` stat for the optional groups: `path.Join(appDir, file)`. */
  function StatPath(appDir: string, g: Group): string
  {
    Join(appDir, ConfigFile(g))
  }

  /** The file whose presence is tested is never the file the group is deployed from. */
  lemma StatPathIsNotConfigPath(appDir: string, g: Group)
    ensures StatPath(appDir, g) != GroupConfigPath(appDir, g)
  {
    assert ConfigFile(g) != "";
    assert |GroupConfigPath(appDir, g)| == |StatPath(appDir, g)| + |GcpConfigDir| + 1;
  }

  /**
   * `updateDeployment(DeploymentName(app, g), ConfigFile(g))`: the target is
   * generated from the group's config file under `gcp_config`.
   */
  function ReconcileGroup(app: string, g: Group, ws: Workspace, env: Group -> GroupInputs): (r: Reconcile)
    ensures Target(GroupConfigPath(ws.appDir, g), ws.cwd, ws.files, ws.parse).Err? ==>
              r.submitted == [] && r.result == Fail(TargetFailed(Target(GroupConfigPath(ws.appDir, g), ws.cwd, ws.files, ws.parse).error))
    ensures forall q :: q in r.submitted ==>
              q.request.target == Target(GroupConfigPath(ws.appDir, g), ws.cwd, ws.files, ws.parse).value &&
              q.request.name == DeploymentName(app, g)
  {
    var inputs := env(g);
    UpdateDeployment(DeploymentName(app, g), Target(GroupConfigPath(ws.appDir, g), ws.cwd, ws.files, ws.parse),
                     inputs.get, inputs.submit, inputs.polls)
  }

  /**
   * With an absolute app directory, `updateDeployment` reads the group's file
   * `<appDir>/gcp_config/<file>` as it is; when that file is missing the group
   * fails with a read error naming that path, before any submission.
   */
  lemma MissingGroupConfigFails(app: string, g: Group, ws: Workspace, env: Group -> GroupInputs)
    requires IsAbs(ws.appDir)
    requires ws.appDir + "/" + GcpConfigDir + "/" + ConfigFile(g) !in ws.files
    ensures ReconcileGroup(app, g, ws, env) ==
            Reconcile([], None, Fail(TargetFailed(ReadConfigError(ws.appDir + "/" + GcpConfigDir + "/" + ConfigFile(g)))))
  {
    var path := GroupConfigPath(ws.appDir, g);
    assert ConfigFile(g) != "";
    assert path == ws.appDir + "/" + GcpConfigDir + "/" + ConfigFile(g);
    assert IsAbs(path) by { assert path[0] == ws.appDir[0]; }
  }

  /** `could not update <file>: <cause>`. */
  datatype DmError = CouldNotUpdate(file: string, cause: DeployError)

  /** The groups that were reconciled, in order, and how the run ended. */
  datatype GroupsRun = GroupsRun(attempted: seq<Group>, result: Outcome<DmError>)

  /** `r` reconciled a prefix of `groups`, stopping exactly at the first group that failed. */
  ghost predicate StopsAtFirstFailure(groups: seq<Group>, outcome: Group -> Outcome<DeployError>, r: GroupsRun)
  {
    && |r.attempted| <= |groups| && r.attempted == groups[..|r.attempted|]
    && (r.result.Pass? <==> forall i :: 0 <= i < |groups| ==> outcome(groups[i]).Pass?)
    && (r.result.Pass? ==> r.attempted == groups)
    && (r.result.Fail? ==>
          && |r.attempted| > 0
          && (forall i :: 0 <= i < |r.attempted| - 1 ==> outcome(groups[i]).Pass?)
          && outcome(groups[|r.attempted| - 1]).Fail?)
  }

  /** Reconciles `groups` in order, `outcome` giving each one's result, and stops at the first failure. */
  function RunGroups(groups: seq<Group>, outcome: Group -> Outcome<DeployError>): (r: GroupsRun)
    ensures StopsAtFirstFailure(groups, outcome, r)
    ensures r.result.Fail? ==>
              var last := groups[|r.attempted| - 1];
              r.result.error == CouldNotUpdate(ConfigFile(last), outcome(last).error)
    decreases |groups|
  {
    if groups == [] then GroupsRun([], Pass)
    else if outcome(groups[0]).Fail? then
      GroupsRun([groups[0]], Fail(CouldNotUpdate(ConfigFile(groups[0]), outcome(groups[0]).error)))
    else
      var rest := RunGroups(groups[1..], outcome);
      RunAfterPass(groups, outcome, rest);
      GroupsRun([groups[0]] + rest.attempted, rest.result)
  }

  /** A run of the groups after a first group that succeeded extends to a run of all of them. */
  lemma RunAfterPass(groups: seq<Group>, outcome: Group -> Outcome<DeployError>, rest: GroupsRun)
    requires |groups| > 0 && outcome(groups[0]).Pass?
    requires StopsAtFirstFailure(groups[1..], outcome, rest)
    ensures StopsAtFirstFailure(groups, outcome, GroupsRun([groups[0]] + rest.attempted, rest.result))
    ensures rest.result.Fail? ==> groups[|rest.attempted|] == groups[1..][|rest.attempted| - 1]
  {
    var tail, n := groups[1..], |rest.attempted|;
    assert forall i :: 1 <= i < |groups| ==> tail[i - 1] == groups[i];
    assert [groups[0]] + rest.attempted == groups[..n + 1] by {
      assert groups[..n + 1] == [groups[0]] + tail[..n];
    }
    if rest.result.Pass? {
      assert [groups[0]] + tail == groups;
    }
  }

  /** The result of reconciling each group of application `app`. */
  function GroupOutcomes(app: string, ws: Workspace, env: Group -> GroupInputs): Group -> Outcome<DeployError>
  {
    g => ReconcileGroup(app, g, ws, env).result
  }

  /**
   * The deployment part of `updateDM`: storage, then the cluster, then network and
   * gcfs when the stat of `<appDir>/network.yaml` and `<appDir>/gcfs.yaml` does
   * not report absence; the first failure ends the run. Those groups are then
   * deployed from `<appDir>/gcp_config/<file>`, a different path.
   */
  function UpdateDM(app: string, networkExists: bool, gcfsExists: bool, ws: Workspace, env: Group -> GroupInputs): (r: GroupsRun)
    ensures |r.attempted| > 0 && r.attempted[0] == Storage
    ensures Cluster in r.attempted ==> ReconcileGroup(app, Storage, ws, env).result.Pass?
    ensures Network in r.attempted ==> networkExists && ReconcileGroup(app, Cluster, ws, env).result.Pass?
    ensures Gcfs in r.attempted ==>
              && gcfsExists
              && forall g :: g in ApplyGroups(networkExists, gcfsExists) && g != Gcfs ==>
                   ReconcileGroup(app, g, ws, env).result.Pass?
    ensures r.result.Pass? <==>
              forall g :: g in ApplyGroups(networkExists, gcfsExists) ==> ReconcileGroup(app, g, ws, env).result.Pass?
  {
    var r := RunGroups(ApplyGroups(networkExists, gcfsExists), GroupOutcomes(app, ws, env));
    ApplyRun(app, networkExists, gcfsExists, ws, env, r);
    r
  }

  /** What any run over the apply list that stops at its first failure means for the groups of `app`. */
  lemma ApplyRun(app: string, networkExists: bool, gcfsExists: bool, ws: Workspace, env: Group -> GroupInputs, r: GroupsRun)
    requires StopsAtFirstFailure(ApplyGroups(networkExists, gcfsExists), GroupOutcomes(app, ws, env), r)
    ensures |r.attempted| > 0 && r.attempted[0] == Storage
    ensures Cluster in r.attempted ==> ReconcileGroup(app, Storage, ws, env).result.Pass?
    ensures Network in r.attempted ==> networkExists && ReconcileGroup(app, Cluster, ws, env).result.Pass?
    ensures Gcfs in r.attempted ==>
              && gcfsExists
              && forall g :: g in ApplyGroups(networkExists, gcfsExists) && g != Gcfs ==>
                   ReconcileGroup(app, g, ws, env).result.Pass?
    ensures r.result.Pass? <==>
              forall g :: g in ApplyGroups(networkExists, gcfsExists) ==> ReconcileGroup(app, g, ws, env).result.Pass?
  {
    var outcome, groups := GroupOutcomes(app, ws, env), ApplyGroups(networkExists, gcfsExists);
    StorageThenCluster(groups, outcome, r);
    GcfsAfterAllOthers(groups, outcome, r);
  }

  /** In a list ordered by `ApplyRank`, gcfs (ranked last) is attempted only after every other group succeeded. */
  lemma GcfsAfterAllOthers(groups: seq<Group>, outcome: Group -> Outcome<DeployError>, r: GroupsRun)
    requires StopsAtFirstFailure(groups, outcome, r)
    requires forall i, j :: 0 <= i < j < |groups| ==> ApplyRank(groups[i]) < ApplyRank(groups[j])
    ensures Gcfs in r.attempted ==> forall g :: g in groups && g != Gcfs ==> outcome(g).Pass?
  {
    if Gcfs in r.attempted {
      var j :| 0 <= j < |r.attempted| && r.attempted[j] == Gcfs;
      assert groups[j] == Gcfs;
      forall g | g in groups && g != Gcfs ensures outcome(g).Pass? {
        var i :| 0 <= i < |groups| && groups[i] == g;
        assert ApplyRank(g) < ApplyRank(Gcfs);
        EarlierGroupsPassed(groups, outcome, r, i, j);
      }
    }
  }

  /** What a run means for a group list that starts with storage and then the cluster. */
  lemma StorageThenCluster(groups: seq<Group>, outcome: Group -> Outcome<DeployError>, r: GroupsRun)
    requires |groups| >= 2 && groups[0] == Storage && groups[1] == Cluster
    requires StopsAtFirstFailure(groups, outcome, r)
    ensures |r.attempted| > 0 && r.attempted[0] == Storage
    ensures forall g :: g in r.attempted ==> g in groups
    ensures Cluster in r.attempted ==> outcome(Storage).Pass?
    ensures Network in r.attempted ==> outcome(Cluster).Pass?
    ensures r.result.Pass? <==> forall g :: g in groups ==> outcome(g).Pass?
  {
    AttemptedAreGroups(groups, outcome, r);
    AllPassed(groups, outcome, r);
    if Cluster in r.attempted {
      AttemptedAfterPassed(groups, outcome, r, 0, Cluster);
    }
    if Network in r.attempted {
      AttemptedAfterPassed(groups, outcome, r, 1, Network);
    }
  }

  lemma AttemptedAreGroups(groups: seq<Group>, outcome: Group -> Outcome<DeployError>, r: GroupsRun)
    requires |groups| > 0 && StopsAtFirstFailure(groups, outcome, r)
    ensures |r.attempted| > 0 && r.attempted[0] == groups[0] && forall g :: g in r.attempted ==> g in groups
  {
    forall g | g in r.attempted ensures g in groups {
      var j :| 0 <= j < |r.attempted| && r.attempted[j] == g;
      assert groups[j] == g;
    }
  }

  lemma AllPassed(groups: seq<Group>, outcome: Group -> Outcome<DeployError>, r: GroupsRun)
    requires StopsAtFirstFailure(groups, outcome, r)
    ensures r.result.Pass? <==> forall g :: g in groups ==> outcome(g).Pass?
  {
    if r.result.Pass? {
      forall g | g in groups ensures outcome(g).Pass? {
        var j :| 0 <= j < |groups| && groups[j] == g;
      }
    }
  }

  /** A group attempted that does not occur up to position `i` was attempted after `groups[i]` succeeded. */
  lemma AttemptedAfterPassed(groups: seq<Group>, outcome: Group -> Outcome<DeployError>, r: GroupsRun, i: nat, g: Group)
    requires StopsAtFirstFailure(groups, outcome, r)
    requires i < |groups| && forall j :: 0 <= j <= i ==> groups[j] != g
    requires g in r.attempted
    ensures outcome(groups[i]).Pass?
  {
    var j :| 0 <= j < |r.attempted| && r.attempted[j] == g;
    assert groups[j] == g;
    EarlierGroupsPassed(groups, outcome, r, i, j);
  }

  /** A group is attempted only after every group before it succeeded. */
  lemma EarlierGroupsPassed(groups: seq<Group>, outcome: Group -> Outcome<DeployError>, r: GroupsRun, i: nat, j: nat)
    requires StopsAtFirstFailure(groups, outcome, r)
    requires i < j < |r.attempted|
    ensures outcome(groups[i]).Pass?
  {
    if r.result.Fail? {
      assert i < |r.attempted| - 1;
    }
  }

  // ---------------------------------------------------------------------------
  // Delete

  /** `deleteDeployment` for group `g`; `provider` answers per deployment name. */
  function DeletionOf(app: string, g: Group, provider: string -> DeleteResponses): Deletion
  {
    DeleteDeployment(provider(DeploymentName(app, g)))
  }

  /** Index of the first target whose deletion fails. */
  function FirstFailedDeletion(app: string, targets: seq<Group>, provider: string -> DeleteResponses): (k: Option<nat>)
    ensures k.Some? ==> k.value < |targets| && DeletionOf(app, targets[k.value], provider).result.Fail? &&
                        forall j :: 0 <= j < k.value ==> DeletionOf(app, targets[j], provider).result.Pass?
    ensures k.None? ==> forall j :: 0 <= j < |targets| ==> DeletionOf(app, targets[j], provider).result.Pass?
    decreases |targets|
  {
    if targets == [] then None
    else if DeletionOf(app, targets[0], provider).result.Fail? then Some(0)
    else match FirstFailedDeletion(app, targets[1..], provider)
      case None => None
      case Some(k) => Some(k + 1)
  }

  /** The loop of `Delete` over the deployments: it returns the first error. */
  method DeleteDeployments(app: string, targets: seq<Group>, provider: string -> DeleteResponses)
    returns (attempted: seq<Group>, result: Outcome<DeleteError>)
    ensures FirstFailedDeletion(app, targets, provider).None? ==> attempted == targets && result == Pass
    ensures FirstFailedDeletion(app, targets, provider).Some? ==>
              var k := FirstFailedDeletion(app, targets, provider).value;
              attempted == targets[..k + 1] && result == DeletionOf(app, targets[k], provider).result
  {
    attempted := [];
    for i := 0 to |targets|
      invariant attempted == targets[..i]
      invariant forall j :: 0 <= j < i ==> DeletionOf(app, targets[j], provider).result.Pass?
    {
      var d := DeleteDeployment(provider(DeploymentName(app, targets[i])));
      attempted := attempted + [targets[i]];
      if d.result.Fail? {
        assert FirstFailedDeletion(app, targets, provider) == Some(i);
        return attempted, d.result;
      }
    }
    assert targets[..|targets|] == targets;
    result := Pass;
  }

  /** A second `Delete` finds nothing (404 everywhere): it succeeds and issues no Delete call. */
  lemma RepeatedDeleteIsIdempotent(app: string, targets: seq<Group>, provider: string -> DeleteResponses)
    requires forall g :: g in targets ==> provider(DeploymentName(app, g)).get.Err? &&
                                          provider(DeploymentName(app, g)).get.error.code == 404
    ensures FirstFailedDeletion(app, targets, provider).None?
    ensures forall g :: g in targets ==> !DeletionOf(app, g, provider).deleteIssued
  {
  }

  datatype DeleteWorkflowError =
    | DeploymentDeletionFailed(cause: DeleteError)
    | GetPolicyFailed(getReason: string)
    | SetPolicyFailed(setReason: string)

  /**
   * `Delete`: removes the deployments in `DeletionTargets` order, stopping at the
   * first failure; then strips the application's three service accounts from
   * every binding of the fetched policy and writes it back. `getPolicy` and
   * `setPolicy` are the outcomes of `utils.GetIamPolicy` and `utils.SetIamPolicy`;
   * `policy` holds the bindings that the fetch returned.
   */
  method Delete(app: string, project: string, deleteStorage: bool, networkExists: bool, gcfsExists: bool,
                provider: string -> DeleteResponses, getPolicy: Outcome<string>, policy: array<Binding>,
                setPolicy: Outcome<string>)
    returns (attempted: seq<Group>, err: Outcome<DeleteWorkflowError>)
    modifies policy
    ensures var targets := DeletionTargets(deleteStorage, networkExists, gcfsExists);
            var k := FirstFailedDeletion(app, targets, provider);
            && (k.Some? ==>
                  && attempted == targets[..k.value + 1]
                  && err == Fail(DeploymentDeletionFailed(DeletionOf(app, targets[k.value], provider).result.error))
                  && policy[..] == old(policy[..]))
            && (k.None? ==> attempted == targets)
            && (k.None? && getPolicy.Fail? ==>
                  err == Fail(GetPolicyFailed(getPolicy.error)) && policy[..] == old(policy[..]))
            && (k.None? && getPolicy.Pass? ==>
                  && policy[..] == Cleaned(old(policy[..]), OwnedMembers(app, project))
                  && err == if setPolicy.Pass? then Pass else Fail(SetPolicyFailed(setPolicy.error)))
  {
    var targets := DeletionTargets(deleteStorage, networkExists, gcfsExists);
    var result;
    attempted, result := DeleteDeployments(app, targets, provider);
    if result.Fail? {
      return attempted, Fail(DeploymentDeletionFailed(result.error));
    }
    if getPolicy.Fail? {
      return attempted, Fail(GetPolicyFailed(getPolicy.error));
    }
    var saSet := OwnedMembers(app, project);
    CleanPolicy(policy, saSet);
    assert policy[..] == Cleaned(old(policy[..]), saSet);
    if setPolicy.Fail? {
      return attempted, Fail(SetPolicyFailed(setPolicy.error));
    }
    err := Pass;
  }
}
