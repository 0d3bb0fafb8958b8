# GCP deployer of kfctl, modelled in Dafny

This project models the GCP platform driver of Kubeflow's `kfctl` bootstrapper
(`bootstrap/pkg/kfapp/gcp/gcp.go`). The driver creates the Deployment Manager
deployments of a Kubeflow application, keeps the project's IAM policy in line
with them, puts secrets into the cluster, names a kubeconfig context and tears
everything down again. Its cloud, Kubernetes, file and `exec` calls fall
outside the model. What the model covers is the deterministic rules between those calls:
- which calls are made and in what order;
- which answers count as success;
- how names, parameter lists and IAM member lists are computed and rewritten.

Every answer of a provider is an input value:
- a Deployment Manager `Get` / `Insert` / `Update` / `Delete` result, as found, 404 or another HTTP error;
- an operation's status and HTTP error code;
- a poll observation;
- a Kubernetes secret lookup;
- the outcome of a file read or write.

Modules, one per concern of the driver:
- `Util`: `Option`, `Result` and `Outcome` (success, or failure with an error value).
- `Strs`: the library string and path operations the driver relies on:
  - `strings.Contains`;
  - `strings.Replace` with count 1;
  - `filepath.IsAbs`, `path.Join` and `filepath.Dir` on clean Unix paths.
- `Identity`: service-account emails (`getSA`), the IAP member (`getIapAccount`), and the three members the application owns.
- `NameValues`: the name/value upsert `setNameVal`.
- `Generate`: the `GcpApp` class, holding the application fields that `Generate` updates in place.
- `Iam`: the placeholder substitution of `writeIamBindingsFile` over the bindings template. It also has the member filter of `Delete`, which works in place on an array of bindings.
- `Poller`: the retry closure of `blockingWait`, as a state machine over a finite sequence of poll observations.
- `Deployment`:
  - `generateTarget` and its import resolution;
  - the `updateDeployment` and `deleteDeployment` decisions;
  - the deployment groups with their names and orders.
- `Lifecycle`: the group loop of `updateDM`, and `Delete` with its deployment loop and IAM cleanup.
- `KubeConfig`: `AddNamedContext`: the context name, the name checks and the context override.
- `Secrets`: `createSecrets` and its get-then-create and update-then-create helpers.

Points where the code's behaviour may surprise a reader:
- `updateDeployment` inserts a new deployment on any error of `Deployments.Get`, not only on 404 (`gcp.go:272-296`).
- Nothing limits the inserts to one across concurrent reconciles: two reconciles that both see `Get` fail each submit an `Insert` (`gcp.go:272-296`).
- `Delete` returns the first failing deletion at once and does not attempt the rest (`gcp.go:680-684`).
- Neither `updateDM` nor `Delete` retries `SetIamPolicy` on an etag conflict, and neither caps retries there (`gcp.go:514`, `gcp.go:524`, `gcp.go:705`).
- An operation that is `DONE` with a populated error list but HTTP error code 0 counts as success (`gcp.go:233-246`).
- `Apply` ignores the error that `AddNamedContext` returns (`gcp.go:621`).
- `updateDM` and `Delete` decide whether network and gcfs exist by stat-ing `<appDir>/network.yaml` and `<appDir>/gcfs.yaml` (`gcp.go:489`, `gcp.go:495`, `gcp.go:673`, `gcp.go:676`), but `updateDeployment` reads `<appDir>/gcp_config/<file>` (`gcp.go:254`, `gcp.go:260`). A file that is only under `gcp_config` is never deployed or deleted; one that is only at the app root makes `updateDM` fail with a read error. `Lifecycle.StatPathIsNotConfigPath` shows the two paths always differ.

## Model

| member | source | states |
|---|---|---|
| Strs.Contains | bootstrap/pkg/kfapp/gcp/gcp.go:752 | `strings.Contains` as a left-to-right scan; its meaning is stated by ContainsIff |
| Strs.ContainsIff | bootstrap/pkg/kfapp/gcp/gcp.go:752 | the recursive substring scan is true exactly when `sub` occurs at some index of `s` |
| Strs.ContainsInSuffix | bootstrap/pkg/kfapp/gcp/gcp.go:125 | an occurrence in `b` is an occurrence in `a + b` |
| Strs.ReplaceFirst | bootstrap/pkg/kfapp/gcp/gcp.go:376-378 | `strings.Replace(s, old, new, 1)`: the leftmost occurrence of the pattern is replaced and the rest kept; an empty pattern puts the replacement in front |
| Strs.ReplaceFirstAfter | bootstrap/pkg/kfapp/gcp/gcp.go:376-378 | when no character of `a` can start the pattern, a single replacement in `a + pat + b` gives `a + rep + b` |
| Strs.ReplaceFirstAbsent | bootstrap/pkg/kfapp/gcp/gcp.go:376-378 | a single replacement of an absent pattern leaves the string unchanged |
| Strs.IsAbs | bootstrap/pkg/kfapp/gcp/gcp.go:157 | `filepath.IsAbs` on Unix: the path starts with `/` |
| Strs.Join | bootstrap/pkg/kfapp/gcp/gcp.go:192 | `path.Join` of two non-empty parts puts one `/` between them; an empty part yields the other |
| Strs.LastSlash | bootstrap/pkg/kfapp/gcp/gcp.go:184 | the result is the index of the last `/`, or none when the path has no `/` |
| Strs.Dir | bootstrap/pkg/kfapp/gcp/gcp.go:184 | `filepath.Dir`: everything before the last `/`, `/` when that is the first character, and `.` when the path has no `/` |
| Identity.ServiceAccount | bootstrap/pkg/kfapp/gcp/gcp.go:124-126 | every derived service-account email contains `iam.gserviceaccount.com` |
| Identity.IapAccount | bootstrap/pkg/kfapp/gcp/gcp.go:750-756 | the IAP member is `serviceAccount:` + email exactly when the email contains `iam.gserviceaccount.com`, and `user:` + email exactly when it does not |
| Identity.IapAccountOfServiceAccount | bootstrap/pkg/kfapp/gcp/gcp.go:750-756 | a derived service account as IAP email yields exactly the owned member `serviceAccount:` + that email |
| Identity.OwnedMember | bootstrap/pkg/kfapp/gcp/gcp.go:691-693 | `serviceAccount:` followed by the service-account email of a suffix |
| Identity.OwnedMembers | bootstrap/pkg/kfapp/gcp/gcp.go:690-693 | the set of the admin, user and vm members that `Delete` strips |
| Identity.OwnedMembersDistinct | bootstrap/pkg/kfapp/gcp/gcp.go:690-693 | the admin, user and vm members are three distinct strings |
| NameValues.FindName | bootstrap/pkg/kfapp/gcp/gcp.go:733-734 | the index found is the first entry with that name; none means no entry has it |
| NameValues.Upsert | bootstrap/pkg/kfapp/gcp/gcp.go:732-747 | if an entry has the name, only the first such entry changes: its value becomes `val` and its `InitRequired`, the length and every other entry stay. Otherwise the result is the input plus exactly one appended entry `{name, val, required}` |
| NameValues.SetNameVal | bootstrap/pkg/kfapp/gcp/gcp.go:732-747 | the loop returns exactly the upsert |
| NameValues.EntryUpsert | bootstrap/pkg/kfapp/gcp/gcp.go:732-747 | after the upsert the name reads an entry holding `val`, whose `InitRequired` is the old entry's when there was one and `required` otherwise. Every other name reads as before |
| NameValues.UpsertIdempotent | bootstrap/pkg/kfapp/gcp/gcp.go:732-747 | upserting the same pair twice equals upserting it once |
| Generate.AssignCompose | bootstrap/pkg/kfapp/gcp/gcp.go:1134-1161 | two rounds of parameter assignments compose, the later round winning on a shared pair |
| Generate.AssignStep | bootstrap/pkg/kfapp/gcp/gcp.go:732-747 | one more upsert extends a round of assignments by that pair, value and flag; other pairs read as before |
| Generate.GcpApp.SetParam | bootstrap/pkg/kfapp/gcp/gcp.go:1134 | `ComponentParams[c]` becomes the upsert of its old list, and no other component changes |
| Generate.GcpApp.SetFixedParams | bootstrap/pkg/kfapp/gcp/gcp.go:1134-1149 | these parameters get their values and flags, and all other parameters are unchanged: `acmeEmail` (required); `ipName` and `hostname` (required) on the ingress the auth mode selects; `mysqlPd` and `minioPd` (not required). A parameter that already existed keeps its own flag |
| Generate.GcpApp.SetIngressParams | bootstrap/pkg/kfapp/gcp/gcp.go:1141-1147 | `ipName` and `hostname` get the spec's values, flagged required when new, on `basic-auth-ingress` under basic auth and on `iap-ingress` otherwise. No other parameter changes |
| Generate.GcpApp.SetPipelineParams | bootstrap/pkg/kfapp/gcp/gcp.go:1148-1149 | `pipeline.mysqlPd` and `pipeline.minioPd` get `<name>-storage-metadata-store` and `<name>-storage-artifact-store`, flagged not required when new. No other parameter changes |
| Generate.GcpApp.SetUsageId | bootstrap/pkg/kfapp/gcp/gcp.go:1151-1157 | `spartakus.usageId` is set, flagged required when new, exactly when the component list names spartakus. Nothing else changes |
| Generate.GcpApp.SetIstioParam | bootstrap/pkg/kfapp/gcp/gcp.go:1159-1161 | `iap-ingress.useIstio` is `"true"`, flagged not required when new, when Istio is used. Nothing else changes |
| Generate.GcpApp.FillParams | bootstrap/pkg/kfapp/gcp/gcp.go:1134-1161 | after all the upserts of `Generate`, each generated parameter gets its value and flag (an existing entry keeping its own flag) and every other parameter is unchanged |
| Generate.DefaultedIpName | bootstrap/pkg/kfapp/gcp/gcp.go:1135-1137 | an empty `IpName` becomes `<name>-ip`; a given one is kept |
| Generate.DefaultedHostname | bootstrap/pkg/kfapp/gcp/gcp.go:1138-1140 | an empty `Hostname` becomes `<name>.endpoints.<project>.cloud.goog`; a given one is kept |
| Generate.GcpApp.Generate | bootstrap/pkg/kfapp/gcp/gcp.go:1115-1168 | an empty email fails with the CLI or non-CLI message and changes nothing. For ALL/PLATFORM a failing config generation fails before any parameter is set. Otherwise `IpName`/`Hostname` take their defaults when empty, every generated parameter is assigned with its flag, and the result reports whether the config write failed |
| Iam.Strip | bootstrap/pkg/kfapp/gcp/gcp.go:695-702 | the members of a binding not in the dropped set, in their original order |
| Iam.StripSpec | bootstrap/pkg/kfapp/gcp/gcp.go:694-704 | the filter keeps no dropped member, and every other member keeps its multiplicity |
| Iam.StripAppend | bootstrap/pkg/kfapp/gcp/gcp.go:694-704 | the filter distributes over concatenation, so kept members stay in their original order |
| Iam.StripNothing | bootstrap/pkg/kfapp/gcp/gcp.go:694-704 | a member list with nothing to drop is kept unchanged |
| Iam.CleanMembers | bootstrap/pkg/kfapp/gcp/gcp.go:695-702 | the rebuilt `cleanedMembers` equals the filtered member list |
| Iam.CleanPolicy | bootstrap/pkg/kfapp/gcp/gcp.go:694-704 | in place, every binding of the array keeps its role and gets its filtered member list |
| Iam.Cleaned | bootstrap/pkg/kfapp/gcp/gcp.go:694-704 | the policy after the filter: each binding keeps its role and gets its filtered members |
| Iam.CleanedPolicy | bootstrap/pkg/kfapp/gcp/gcp.go:690-704 | binding count and roles are unchanged, none of the three owned service-account members remains, and every other member keeps its multiplicity |
| Iam.SubstituteMembers | bootstrap/pkg/kfapp/gcp/gcp.go:795-805 | the loop builds exactly the resolved list of its members: same length, a placeholder member replaced by its mapped account and any other member copied |
| Iam.RewriteBindings | bootstrap/pkg/kfapp/gcp/gcp.go:776-813 | a document without `bindings` fails; with bindings, it fails exactly when some binding lacks `members`. On success every binding keeps its role and gets its substituted members |
| Iam.Placeholders | bootstrap/pkg/kfapp/gcp/gcp.go:784-789 | the `roles` table: the admin, user and vm placeholders map to their `serviceAccount:` members, and the IAP placeholder to the IAP member |
| Iam.Resolve | bootstrap/pkg/kfapp/gcp/gcp.go:798-803 | a member found in the table becomes its account; any other member is kept |
| Iam.PlaceholdersAreOwned | bootstrap/pkg/kfapp/gcp/gcp.go:784-789 | each of the three service-account placeholders resolves to one of the members `Delete` removes |
| Iam.ResolveThenStrip | bootstrap/pkg/kfapp/gcp/gcp.go:784-813 | after substitution and then the `Delete` filter, no owned member remains, and every survivor is either a template member that is not a placeholder or the IAP member. Every template member that is neither a placeholder nor owned survives |
| Poller.PollStep | bootstrap/pkg/kfapp/gcp/gcp.go:226-250 | one observation is retried exactly when it is a poll error or a status other than DONE, and the next name is the latest `op.Name`. It is a permanent failure exactly when DONE with HTTP error code > 0, and a success otherwise |
| Poller.BlockingWait | bootstrap/pkg/kfapp/gcp/gcp.go:221-251 | the loop's outcome and the operation names it polls equal the state machine over the observations |
| Poller.Wait | bootstrap/pkg/kfapp/gcp/gcp.go:221-251 | the wait as a recursion over the observations: retry goes on with the next name, DONE decides, an exhausted sequence gives up |
| Poller.Queried | bootstrap/pkg/kfapp/gcp/gcp.go:226-249 | the operation names the polls query, the first being the given name |
| Poller.FirstTerminal | bootstrap/pkg/kfapp/gcp/gcp.go:238-246 | finds the first DONE observation; none means no observation is DONE |
| Poller.WaitDecidedByFirstDone | bootstrap/pkg/kfapp/gcp/gcp.go:226-250 | the wait ends as the first DONE observation says (success, or a permanent error with its code and message), and gives up when there is none |
| Poller.WaitDoneIff | bootstrap/pkg/kfapp/gcp/gcp.go:226-250 | the wait succeeds exactly when some observation is DONE with code 0 and every earlier one is non-terminal |
| Poller.QueriedTracksLatestName | bootstrap/pkg/kfapp/gcp/gcp.go:247-249 | the first poll uses the given name, and each later poll uses the name derived from the previous observation |
| Deployment.Paths | bootstrap/pkg/kfapp/gcp/gcp.go:185-190 | the `path` of every import entry that has one, in order; entries without one are skipped |
| Deployment.ImportPath | bootstrap/pkg/kfapp/gcp/gcp.go:190-193 | an absolute import path is read as it is, a relative one under the config's directory |
| Deployment.ImportsOf | bootstrap/pkg/kfapp/gcp/gcp.go:185-203 | reference definition of the import list: one import per path in order, or the read error of the first missing file |
| Deployment.ImportsOfFailureSticks | bootstrap/pkg/kfapp/gcp/gcp.go:195-202 | once a prefix of the import paths fails, the whole list fails with the same error |
| Deployment.ResolveImports | bootstrap/pkg/kfapp/gcp/gcp.go:183-203 | success exactly when every entry with a `path` is readable. Then one import per such entry, in order, named by the path as written, with the content read from the joined path. On failure the error names the first unreadable import. The loop's result equals `ImportsOf` of the paths |
| Deployment.FirstMissingImport | bootstrap/pkg/kfapp/gcp/gcp.go:195-202 | the first missing import file decides the error and rules out success |
| Deployment.PathsPrefix | bootstrap/pkg/kfapp/gcp/gcp.go:185-189 | the paths of a prefix of the entries are a prefix of all paths |
| Deployment.GenerateTarget | bootstrap/pkg/kfapp/gcp/gcp.go:156-205 | a relative config path is made absolute. A read failure and a YAML failure are errors. No `imports` key means the config alone; otherwise the imports are resolved relative to the config's directory. The result equals `Target`, the definition `updateDeployment` uses |
| Deployment.UpdateDeployment | bootstrap/pkg/kfapp/gcp/gcp.go:253-297 | a target error stops before any call. When Get succeeds the fingerprint is copied: a DONE operation gets one Update, whose new operation is awaited; any other status gets no submission and its own operation is awaited. When Get fails, one Insert with no fingerprint. Success exactly when the awaited operation is done |
| Deployment.ConcurrentReconcileSharesOperation | bootstrap/pkg/kfapp/gcp/gcp.go:272-287 | two reconciles that find the same in-flight operation submit nothing and wait on that same operation |
| Deployment.ConcurrentMissesBothInsert | bootstrap/pkg/kfapp/gcp/gcp.go:272-296 | two reconciles that both see `Get` fail submit two Inserts, one each, with no fingerprint |
| Deployment.AtMostOneSubmission | bootstrap/pkg/kfapp/gcp/gcp.go:272-296 | a reconcile submits at most once, and an Insert only when Get failed |
| Deployment.DeleteDeployment | bootstrap/pkg/kfapp/gcp/gcp.go:628-651 | Get 404 is success with no Delete call; any other Get error fails. Otherwise one Delete, whose operation is awaited, and failure of either is reported |
| Deployment.DeploymentName | bootstrap/pkg/kfapp/gcp/gcp.go:483-496 | the cluster deployment is named after the app; storage, network and gcfs add `-storage`, `-network` and `-gcfs` |
| Deployment.ConfigFile | bootstrap/pkg/kfapp/gcp/gcp.go:61-64 | the config files `cluster-kubeflow.yaml`, `storage-kubeflow.yaml`, `network.yaml` and `gcfs.yaml` |
| Deployment.DeploymentNamesDistinct | bootstrap/pkg/kfapp/gcp/gcp.go:483-496 | the four groups have four distinct deployment names |
| Deployment.ApplyGroups | bootstrap/pkg/kfapp/gcp/gcp.go:483-500 | storage and cluster always, network and gcfs exactly when the stat of `<appDir>/network.yaml` and `<appDir>/gcfs.yaml` (at the app root, not under `gcp_config`) does not report absence, in the order storage, cluster, network, gcfs |
| Deployment.DeletionTargets | bootstrap/pkg/kfapp/gcp/gcp.go:667-678 | cluster always, storage exactly when `DeleteStorage`, network and gcfs exactly when the stat of `<appDir>/network.yaml` and `<appDir>/gcfs.yaml` (at the app root, not under `gcp_config`) does not report absence, in the order cluster, storage, network, gcfs |
| Deployment.DeletionMirrorsApply | bootstrap/pkg/kfapp/gcp/gcp.go:667-678 | a group is deleted exactly when `updateDM` creates it, storage only when asked |
| Lifecycle.ReconcileGroup | bootstrap/pkg/kfapp/gcp/gcp.go:253-297 | each group is reconciled by `updateDeployment` under its deployment name, with the target generated from `<appDir>/gcp_config/<file>`. A target error stops before any submission, and every submission carries that target and the group's deployment name |
| Lifecycle.StatPathIsNotConfigPath | bootstrap/pkg/kfapp/gcp/gcp.go:489-496 | the path `updateDM` stats for an optional group, `<appDir>/<file>`, is never the path `updateDeployment` reads it from, `<appDir>/gcp_config/<file>` |
| Lifecycle.MissingGroupConfigFails | bootstrap/pkg/kfapp/gcp/gcp.go:254-266 | with an absolute app directory, a missing `<appDir>/gcp_config/<file>` makes the group fail with a read error naming that path, and nothing is submitted |
| Lifecycle.RunGroups | bootstrap/pkg/kfapp/gcp/gcp.go:483-500 | the groups attempted are a prefix of the list, and the run succeeds exactly when every group does. On failure the last attempted group is the first failing one, all before it succeeded, and the error names its config file |
| Lifecycle.RunAfterPass | bootstrap/pkg/kfapp/gcp/gcp.go:483-500 | when the first group succeeds, a run of the remaining groups that stops at their first failure, with the first group put in front, stops at the first failure of the whole list |
| Lifecycle.EarlierGroupsPassed | bootstrap/pkg/kfapp/gcp/gcp.go:483-500 | a group is attempted only after every group before it succeeded |
| Lifecycle.AttemptedAfterPassed | bootstrap/pkg/kfapp/gcp/gcp.go:483-500 | a group attempted that does not occur up to position `i` was only reached after the group at `i` succeeded |
| Lifecycle.StorageThenCluster | bootstrap/pkg/kfapp/gcp/gcp.go:483-494 | for any run that stops at the first failure over a list starting with storage and then the cluster: storage is attempted first, only listed groups are attempted, the cluster only after storage succeeded, the network only after the cluster succeeded, and success means every group succeeded |
| Lifecycle.GcfsAfterAllOthers | bootstrap/pkg/kfapp/gcp/gcp.go:495-499 | in any run that stops at the first failure over a list that ends with gcfs, gcfs is attempted only after every other listed group succeeded |
| Lifecycle.UpdateDM | bootstrap/pkg/kfapp/gcp/gcp.go:480-500 | storage goes first; the cluster only after storage succeeded; network only if the stat of `<appDir>/network.yaml` does not report absence, and after the cluster succeeded; gcfs only if the stat of `<appDir>/gcfs.yaml` does not report absence, and after every other group of the apply list succeeded. Success exactly when every group of the apply list succeeds |
| Lifecycle.DeletionOf | bootstrap/pkg/kfapp/gcp/gcp.go:680-684 | each target is deleted by `deleteDeployment` under its deployment name |
| Lifecycle.FirstFailedDeletion | bootstrap/pkg/kfapp/gcp/gcp.go:680-684 | the index of the first failing deletion; none means every deletion succeeds |
| Lifecycle.DeleteDeployments | bootstrap/pkg/kfapp/gcp/gcp.go:680-684 | the loop attempts the targets up to and including the first failing one and returns its error; with no failure it succeeds |
| Lifecycle.RepeatedDeleteIsIdempotent | bootstrap/pkg/kfapp/gcp/gcp.go:630-636 | when every Get answers 404, no deletion fails and no Delete call is issued |
| Lifecycle.Delete | bootstrap/pkg/kfapp/gcp/gcp.go:653-710 | a failed deletion stops everything and leaves the policy untouched, as does a failed policy fetch. Otherwise the three owned members are stripped from every binding in place, and the result is the outcome of writing the policy back |
| KubeConfig.KubeconfigName | bootstrap/pkg/kfapp/gcp/gcp.go:376-378 | the three single replacements of `{project}`, `{zone}` and `{cluster}` in `gke_{project}_{zone}_{cluster}` |
| KubeConfig.KubeconfigNameShape | bootstrap/pkg/kfapp/gcp/gcp.go:376-378 | for project and zone without `{`, the name is `gke_<project>_<zone>_<cluster>` |
| KubeConfig.ScanNames | bootstrap/pkg/kfapp/gcp/gcp.go:407-422 | the scan of `configNameChecker` over one section: an entry without a name fails, the first matching name passes, and running out fails with name not found |
| KubeConfig.NameCheck | bootstrap/pkg/kfapp/gcp/gcp.go:396-405 | a missing section fails before the scan |
| KubeConfig.ScanNamesPass | bootstrap/pkg/kfapp/gcp/gcp.go:396-423 | the check of a section passes exactly when some entry carries the name and every entry before it has a name |
| KubeConfig.CheckName | bootstrap/pkg/kfapp/gcp/gcp.go:396-423 | the loop returns the check's verdict: a missing section, an entry without a name, or a name not found each fail |
| KubeConfig.FirstNamed | bootstrap/pkg/kfapp/gcp/gcp.go:450-457 | the index of the first context named `app`; none means no context has that name |
| KubeConfig.Overridden | bootstrap/pkg/kfapp/gcp/gcp.go:450-458 | the new context is last. When no context had the name, all the old contexts come first, unchanged. Otherwise exactly the first one with the name is removed and the others keep their order |
| KubeConfig.ReplaceContext | bootstrap/pkg/kfapp/gcp/gcp.go:450-458 | the splice loop yields the overridden context list |
| KubeConfig.OverrideLeavesOneContext | bootstrap/pkg/kfapp/gcp/gcp.go:450-458 | if at most one context had the app's name before, the result is exactly the contexts with other names, kept in order, then the new context; only the new context has the name |
| KubeConfig.RemovedIsOnlyNamed | bootstrap/pkg/kfapp/gcp/gcp.go:450-456 | when only the context at `k` has the name, dropping every named context is dropping the one at `k` |
| KubeConfig.NamedContext | bootstrap/pkg/kfapp/gcp/gcp.go:443-449 | the context named after the app, with `cluster` and `user` set to the kubeconfig name and `namespace` to the app namespace |
| KubeConfig.CheckAll | bootstrap/pkg/kfapp/gcp/gcp.go:425-433 | passes exactly when the clusters, users and contexts checks all pass. The clusters failure is the one reported first, and a pass implies the three sections exist |
| KubeConfig.AddNamedContext | bootstrap/pkg/kfapp/gcp/gcp.go:375-478 | read errors pass through, then the first failing name check is returned. When all pass, a failed write is an error. Otherwise the config written has the overridden context list with the new `{cluster, user, namespace}` context and `current-context` set to the app, and nothing else changed |
| KubeConfig.AddedContextIsCurrent | bootstrap/pkg/kfapp/gcp/gcp.go:441-460 | the context written is named after the app, is last, and (given no duplicates before) is the only one with that name |
| Secrets.EnsureServiceAccountSecret | bootstrap/pkg/kfapp/gcp/gcp.go:993-1037 | an existing secret means success with no key asked for and nothing written. Otherwise a key is asked for (recorded as attempted, whether or not it is obtained); success exactly when the key and the Create both succeed, and the one secret written is `<name>.json` holding that key in the requested namespace |
| Secrets.EnsureServiceAccountSecrets | bootstrap/pkg/kfapp/gcp/gcp.go:1086-1100 | each request's Get also finds the secrets written earlier in the run. Keys are asked for only for requests of the plan whose secret was missing, never twice for the same secret, and every secret written belongs to a request of the plan and was not there before |
| Secrets.EnsuredSecretsAvailable | bootstrap/pkg/kfapp/gcp/gcp.go:1086-1100 | after a successful run every requested secret was already present or was written |
| Secrets.FirstRequests | bootstrap/pkg/kfapp/gcp/gcp.go:1086-1100 | reference definition: the first request for each secret not yet present, in plan order |
| Secrets.ServiceAccountSecretsPassIff | bootstrap/pkg/kfapp/gcp/gcp.go:1086-1100 | the key secrets succeed if and only if the key and the `Create` succeed for every request of `FirstRequests` of the plan, i.e. every request that finds its secret missing |
| Secrets.KeyFailureFailsCreateSecrets | bootstrap/pkg/kfapp/gcp/gcp.go:1086-1100 | a failing key or `Create` for a key secret that is missing when asked for fails `createSecrets` |
| Secrets.OneWrites | bootstrap/pkg/kfapp/gcp/gcp.go:993-1037 | a request for a present secret writes nothing; a successful request for a missing one writes exactly that secret |
| Secrets.AllSucceedAttemptsFirstRequests | bootstrap/pkg/kfapp/gcp/gcp.go:1086-1100 | when every key and Create succeeds, the run passes and asks for keys exactly for `FirstRequests` of the plan |
| Secrets.ServiceAccountSecretPlan | bootstrap/pkg/kfapp/gcp/gcp.go:1084-1100 | the admin and user key secrets in the app namespace, also in `istio-system` when Istio is used, each paired with its own service account, and no other request |
| Secrets.EnsureIapSecret | bootstrap/pkg/kfapp/gcp/gcp.go:1040-1056 | an existing `kubeflow-oauth` secret means success with nothing written. Otherwise success exactly when the Create does, and the secret is then available; no key is asked for |
| Secrets.EnsureBasicAuthSecret | bootstrap/pkg/kfapp/gcp/gcp.go:1059-1075 | success exactly when the Update or the fallback Create succeeds, the error being the Create's; on success the `kubeflow-login` secret with `username` and `passwordhash` is written |
| Secrets.CreateSecrets | bootstrap/pkg/kfapp/gcp/gcp.go:1078-1111 | a client failure stops at once with nothing written. Keys are asked for only for admin or user secrets that were missing at the start, and never twice for the same secret; the OAuth Get also sees the key secrets just written |
| Secrets.KeysAskedOncePerSecret | bootstrap/pkg/kfapp/gcp/gcp.go:1084-1100 | on an empty cluster where every call succeeds, under Istio keys are asked for all four requests, but only for the first two when the app namespace is `istio-system`, whose second pair of Gets finds the secrets just written |
| Secrets.KeySecretsInPlace | bootstrap/pkg/kfapp/gcp/gcp.go:1084-1100 | after a successful `createSecrets` the admin and user secrets are available in the app namespace, and in `istio-system` too when Istio is used |
| Secrets.AuthSecretInPlace | bootstrap/pkg/kfapp/gcp/gcp.go:1101-1109 | after a successful `createSecrets` the login secret is available under basic auth, and otherwise the OAuth secret in its namespace |
| Secrets.LoginSecretAvailable | bootstrap/pkg/kfapp/gcp/gcp.go:1059-1075 | a successful `createBasicAuthSecret` makes `kubeflow-login` available in the app namespace |

## Left out

- Cloud SDK calls are left out as behaviour: Deployment Manager, IAM key creation, Service Usage and cluster info. Their answers are inputs.
- The IAM helpers `utils.GetIamPolicy`, `SetIamPolicy`, `ClearIamPolicy`, `RewriteIamPolicy` and `ReadIamBindingsYAML` are not part of this model. Their file is not modelled.
- Hence the IAM half of `updateDM` (`gcp.go:502-526`) is not modelled: `Lifecycle.UpdateDM` stops after the deployments.
- Kubernetes clientset work (`ConfigK8s`, `createNamespace`, `bindAdmin`) and the Istio manifest installs in `updateDM` are foreign calls and are left out.
- Key creation for service-account secrets, with its OAuth client and base64 decoding, is folded into one outcome per account email (`keys`). Under Istio the app-namespace and `istio-system` copies of a secret therefore get the same key and share its outcome, whereas `gcp.go:1022-1026` mints a new key on every call.
- Secrets.EnsureServiceAccountSecret: a Get that fails for a reason other than absence is treated like absence, as the code does. Which error it was is not modelled.
- `Apply` is not composed. It checks environment variables and bcrypt-hashes the password, then runs `updateDM` (which itself calls `ConfigK8s`, `gcp.go:528`) and `createSecrets`. In CLI mode it then runs `gcloud container clusters get-credentials` and calls `AddNamedContext` when the kubeconfig exists (`gcp.go:610-622`). The model has `UpdateDM`, `CreateSecrets` and `AddNamedContext` as separate operations. The environment, the hashing and the exec are I/O and library code.
- Files, YAML and `os.Stat` are modelled as inputs:
  - a file read is a map from paths to contents;
  - YAML decoding is a `parse` function or an already-decoded document. Marshalling is not modelled: a binding whose `members` list is empty gets a nil `newMembers` (`gcp.go:796-805`), which marshals as `members: null`, where `Iam.RewriteBindings` gives an empty list;
  - a file's existence is a boolean, true whenever `os.Stat` of `<appDir>/network.yaml` or `<appDir>/gcfs.yaml` does not report absence (`gcp.go:489`, `gcp.go:495`, `gcp.go:673`, `gcp.go:676`), so another stat error counts as existing;
  - `writeConfigFile` and marshalling are outcomes.
- `copyFile`, `generateDMConfigs`, `writeClusterConfig` and `writeStorageConfig` are file copies and YAML edits. `Generate` sees only their overall outcome. `generateDMConfigs` also runs `writeIamBindingsFile` (`gcp.go:976`), whose rewrite `Iam.RewriteBindings` models. `Generate`'s `dmConfigs` outcome is not tied to that model.
- Strs.Join, Strs.Dir: no lexical `Clean` of `.`/`..` or repeated slashes; `filepath.Abs` is a join with the working directory, which is a parameter.
- Poller.BlockingWait: the timing of `backoff.NewExponentialBackOff` (intervals, jitter, maximum elapsed time) is not modelled. Giving up is modelled by the finite observation sequence running out.
- Generate.GcpApp.SetUsageId: the `rand`-based usage id is a parameter. Each spartakus entry of the component list upserts that same value, where the code draws a fresh number each time.
- The type assertions of the code (`err.(*googleapi.Error)`, `e.([]interface{})`, `mm.(string)`) would panic on unexpected input, and so would `Generate`'s assignment into a nil `ComponentParams` map (`gcp.go:1134`). The model's typed inputs rule out those panics, and its parameter map is always present.
- `Init`, `gcpInitProject`, `GetKfApp`, `getAccount` and `getK8sClientset` are left out. They set up clients and call `gcloud`.
- Thread-safety remarks (`gcp.go:85`, `gcp.go:566`) have no code behind them, so nothing is modelled.
- KubeConfig.AddNamedContext: other top-level kubeconfig keys are not represented. The code keeps them unchanged.
