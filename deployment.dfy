/**
 * Deployment Manager orchestration in `gcp.go`: building the target
 * configuration of a deployment from its YAML file and imports
 * (`generateTarget`), and the decisions of `updateDeployment` and
 * `deleteDeployment`. Files, YAML parsing and every provider call are inputs.
 */
module Deployment {
  import opened Util
  import opened Strs
  import opened Poller

  /** A `googleapi.Error`: the provider's HTTP status code and message. */
  datatype ApiError = ApiError(code: int, message: string)

  // ---------------------------------------------------------------------------
  // generateTarget

  /** `deploymentmanager.ImportFile`. */
  datatype ImportFile = ImportFile(name: string, content: string)

  /** `deploymentmanager.TargetConfiguration`: the main config and its imports. */
  datatype TargetConfiguration = TargetConfiguration(config: string, imports: seq<ImportFile>)

  /** One entry of the `imports` list of a config file; `path` may be missing. */
  datatype ImportEntry = ImportEntry(path: Option<string>)

  /** What `generateTarget` reads from the parsed config: the `imports` list, if present. */
  datatype ConfigDoc = ConfigDoc(imports: Option<seq<ImportEntry>>)

  datatype TargetError =
    | ReadConfigError(path: string)   // reading the config file failed
    | YamlError                       // the config file is not YAML
    | ReadImportError(path: string)   // reading an import file failed

  /** The paths of the entries that have one, in order; the others are skipped. */
  function Paths(entries: seq<ImportEntry>): seq<string>
    decreases |entries|
  {
    if entries == [] then []
    else
      var last := entries[|entries| - 1];
      Paths(entries[..|entries| - 1]) + (if last.path.Some? then [last.path.value] else [])
  }

  /** Where an import is read from: absolute paths as they are, relative ones under `dir`. */
  function ImportPath(dir: string, p: string): string
  {
    if IsAbs(p) then p else Join(dir, p)
  }

  /** Every import with a path was read: one file per path, named by the path as written. */
  ghost predicate ImportsRead(dir: string, entries: seq<ImportEntry>, files: map<string, string>,
                              imports: seq<ImportFile>)
  {
    var ps := Paths(entries);
    && (forall k :: 0 <= k < |ps| ==> ImportPath(dir, ps[k]) in files)
    && |imports| == |ps|
    && forall k :: 0 <= k < |ps| ==> imports[k] == ImportFile(ps[k], files[ImportPath(dir, ps[k])])
  }

  /** Reading stopped at the first import file that is missing, and reported it. */
  ghost predicate ImportFailed(dir: string, entries: seq<ImportEntry>, files: map<string, string>,
                               err: TargetError)
  {
    var ps := Paths(entries);
    exists k :: && 0 <= k < |ps|
                && (forall j :: 0 <= j < k ==> ImportPath(dir, ps[j]) in files)
                && ImportPath(dir, ps[k]) !in files
                && err == ReadImportError(ImportPath(dir, ps[k]))
  }

  /**
   * The imports read for the paths `ps`, in order, or the error of the first
   * one whose file is missing.
   */
  function ImportsOf(dir: string, ps: seq<string>, files: map<string, string>): Result<seq<ImportFile>, TargetError>
    decreases |ps|
  {
    if ps == [] then Ok([])
    else
      var p := ps[|ps| - 1];
      match ImportsOf(dir, ps[..|ps| - 1], files)
      case Err(e) => Err(e)
      case Ok(imports) =>
        if ImportPath(dir, p) in files then Ok(imports + [ImportFile(p, files[ImportPath(dir, p)])])
        else Err(ReadImportError(ImportPath(dir, p)))
  }

  /** Once a prefix of the paths fails, every longer prefix fails with the same error. */
  lemma {:induction false} ImportsOfFailureSticks(dir: string, ps: seq<string>, files: map<string, string>, n: nat)
    requires n <= |ps| && ImportsOf(dir, ps[..n], files).Err?
    ensures ImportsOf(dir, ps, files) == ImportsOf(dir, ps[..n], files)
    decreases |ps| - n
  {
    if n < |ps| {
      assert ps[..n + 1][..n] == ps[..n];
      ImportsOfFailureSticks(dir, ps, files, n + 1);
    } else {
      assert ps[..n] == ps;
    }
  }

  /** The import loop of `generateTarget`; `files` maps each readable path to its content. */
  method ResolveImports(dir: string, entries: seq<ImportEntry>, files: map<string, string>)
    returns (r: Result<seq<ImportFile>, TargetError>)
    ensures r.Ok? <==> forall k :: 0 <= k < |Paths(entries)| ==> ImportPath(dir, Paths(entries)[k]) in files
    ensures r.Ok? ==> ImportsRead(dir, entries, files, r.value)
    ensures r.Err? ==> ImportFailed(dir, entries, files, r.error)
    ensures r == ImportsOf(dir, Paths(entries), files)
  {
    var imports: seq<ImportFile> := [];
    var i := 0;
    while i < |entries|
      invariant 0 <= i <= |entries|
      invariant ImportsRead(dir, entries[..i], files, imports)
      invariant ImportsOf(dir, Paths(entries[..i]), files) == Ok(imports)
    {
      PathsSnoc(entries, i);
      var entry := entries[i];
      if entry.path.None? {
        assert Paths(entries[..i + 1]) == Paths(entries[..i]);
        i := i + 1;
        continue;
      }
      var importPath := entry.path.value;
      if !IsAbs(importPath) {
        importPath := Join(dir, importPath);
      }
      assert importPath == ImportPath(dir, entry.path.value);
      if importPath in files {
        ImportsOfStep(dir, entries, i, files, imports);
        ImportsReadStep(dir, entries[..i], entries[..i + 1], files, imports, entry.path.value);
        imports := imports + [ImportFile(entry.path.value, files[importPath])];
      } else {
        FirstMissingImport(dir, entries, files, i, imports);
        ImportsOfMissing(dir, entries, i, files, imports);
        return Err(ReadImportError(importPath));
      }
      i := i + 1;
    }
    assert entries[..|entries|] == entries;
    return Ok(imports);
  }

  /** The imports of one more path. */
  lemma ImportsOfSnoc(dir: string, ps: seq<string>, p: string, files: map<string, string>)
    ensures ImportsOf(dir, ps + [p], files) ==
            match ImportsOf(dir, ps, files)
            case Err(e) => Err(e)
            case Ok(imports) =>
              if ImportPath(dir, p) in files then Ok(imports + [ImportFile(p, files[ImportPath(dir, p)])])
              else Err(ReadImportError(ImportPath(dir, p)))
  {
    assert (ps + [p])[..|ps|] == ps;
  }

  /** One more entry whose file is readable extends the imports by that file. */
  lemma ImportsOfStep(dir: string, entries: seq<ImportEntry>, i: nat, files: map<string, string>,
                      imports: seq<ImportFile>)
    requires i < |entries| && entries[i].path.Some? && ImportPath(dir, entries[i].path.value) in files
    requires ImportsOf(dir, Paths(entries[..i]), files) == Ok(imports)
    ensures ImportsOf(dir, Paths(entries[..i + 1]), files) ==
            Ok(imports + [ImportFile(entries[i].path.value, files[ImportPath(dir, entries[i].path.value)])])
  {
    PathsSnoc(entries, i);
    ImportsOfSnoc(dir, Paths(entries[..i]), entries[i].path.value, files);
  }

  /** An entry whose file is missing decides the imports of all the entries. */
  lemma ImportsOfMissing(dir: string, entries: seq<ImportEntry>, i: nat, files: map<string, string>,
                         imports: seq<ImportFile>)
    requires i < |entries| && entries[i].path.Some? && ImportPath(dir, entries[i].path.value) !in files
    requires ImportsOf(dir, Paths(entries[..i]), files) == Ok(imports)
    ensures ImportsOf(dir, Paths(entries), files) == Err(ReadImportError(ImportPath(dir, entries[i].path.value)))
  {
    PathsSnoc(entries, i);
    ImportsOfSnoc(dir, Paths(entries[..i]), entries[i].path.value, files);
    PathsPrefix(entries, i + 1);
    ImportsOfFailureSticks(dir, Paths(entries), files, |Paths(entries[..i + 1])|);
  }

  /** The paths of one more entry. */
  lemma PathsSnoc(entries: seq<ImportEntry>, i: nat)
    requires i < |entries|
    ensures Paths(entries[..i + 1]) ==
            Paths(entries[..i]) + (if entries[i].path.Some? then [entries[i].path.value] else [])
  {
    assert entries[..i + 1][..i] == entries[..i];
  }

  /** Reading one more present import extends what was read. */
  lemma ImportsReadStep(dir: string, before: seq<ImportEntry>, after: seq<ImportEntry>, files: map<string, string>,
                        imports: seq<ImportFile>, p: string)
    requires ImportsRead(dir, before, files, imports)
    requires Paths(after) == Paths(before) + [p] && ImportPath(dir, p) in files
    ensures ImportsRead(dir, after, files, imports + [ImportFile(p, files[ImportPath(dir, p)])])
  {
  }

  /** Entry `i` is the first one whose import file is missing. */
  lemma FirstMissingImport(dir: string, entries: seq<ImportEntry>, files: map<string, string>, i: nat,
                           imports: seq<ImportFile>)
    requires i < |entries| && entries[i].path.Some?
    requires ImportPath(dir, entries[i].path.value) !in files
    requires ImportsRead(dir, entries[..i], files, imports)
    ensures ImportFailed(dir, entries, files, ReadImportError(ImportPath(dir, entries[i].path.value)))
    ensures !forall k :: 0 <= k < |Paths(entries)| ==> ImportPath(dir, Paths(entries)[k]) in files
  {
    var p := entries[i].path.value;
    var ps, pre := Paths(entries), Paths(entries[..i]);
    PathsSnoc(entries, i);
    PathsPrefix(entries, i + 1);
    assert ps[..|pre| + 1] == pre + [p];
    MissingAfterRead(dir, ps, pre, files, |pre|);
  }

  /** Position `k` of `ps` is missing and every position before it was read. */
  lemma MissingAfterRead(dir: string, ps: seq<string>, pre: seq<string>, files: map<string, string>, k: nat)
    requires k < |ps| && ps[..k + 1] == pre + [ps[k]] && ImportPath(dir, ps[k]) !in files
    requires forall j :: 0 <= j < |pre| ==> ImportPath(dir, pre[j]) in files
    ensures forall j :: 0 <= j < k ==> ImportPath(dir, ps[j]) in files
  {
    forall j | 0 <= j < k ensures ImportPath(dir, ps[j]) in files {
      assert ps[..k + 1][j] == pre[j];
    }
  }

  /** The paths of a prefix of the entries are a prefix of the paths. */
  lemma {:induction false} PathsPrefix(entries: seq<ImportEntry>, n: nat)
    requires n <= |entries|
    ensures |Paths(entries[..n])| <= |Paths(entries)|
    ensures Paths(entries[..n]) == Paths(entries)[..|Paths(entries[..n])|]
    decreases |entries| - n
  {
    if n < |entries| {
      PathsPrefix(entries, n + 1);
      PathsSnoc(entries, n);
    } else {
      assert entries[..n] == entries;
    }
  }

  /** The target `generateTarget` builds from `configPath`, or the error that stops it. */
  function Target(configPath: string, cwd: string, files: map<string, string>,
                  parse: string -> Option<ConfigDoc>): Result<TargetConfiguration, TargetError>
  {
    var abs := if IsAbs(configPath) then configPath else Join(cwd, configPath);
    if abs !in files then Err(ReadConfigError(abs))
    else match parse(files[abs])
      case None => Err(YamlError)
      case Some(doc) =>
        if doc.imports.None? then Ok(TargetConfiguration(files[abs], []))
        else match ImportsOf(Dir(abs), Paths(doc.imports.value), files)
          case Err(e) => Err(e)
          case Ok(imports) => Ok(TargetConfiguration(files[abs], imports))
  }

  /**
   * `generateTarget(configPath)`: makes the path absolute against `cwd`, reads the
   * config file, parses it with `parse` and, when it has an `imports` list, reads
   * every import with a path relative to the config file's directory.
   */
  method GenerateTarget(configPath: string, cwd: string, files: map<string, string>,
                        parse: string -> Option<ConfigDoc>)
    returns (r: Result<TargetConfiguration, TargetError>)
    ensures var abs := if IsAbs(configPath) then configPath else Join(cwd, configPath);
      && (abs !in files ==> r == Err(ReadConfigError(abs)))
      && (abs in files && parse(files[abs]).None? ==> r == Err(YamlError))
      && (abs in files && parse(files[abs]).Some? ==>
            var doc := parse(files[abs]);
            if doc.value.imports.None? then r == Ok(TargetConfiguration(files[abs], []))
            else
              && (r.Ok? ==> r.value.config == files[abs] &&
                            ImportsRead(Dir(abs), doc.value.imports.value, files, r.value.imports))
              && (r.Err? ==> ImportFailed(Dir(abs), doc.value.imports.value, files, r.error)))
    ensures r == Target(configPath, cwd, files, parse)
  {
    var abs := configPath;
    if !IsAbs(configPath) {
      abs := Join(cwd, configPath);
    }
    if abs !in files {
      return Err(ReadConfigError(abs));
    }
    var content := files[abs];
    var doc := parse(content);
    if doc.None? {
      return Err(YamlError);
    }
    if doc.value.imports.None? {
      return Ok(TargetConfiguration(content, []));
    }
    var imports := ResolveImports(Dir(abs), doc.value.imports.value, files);
    if imports.Err? {
      return Err(imports.error);
    }
    return Ok(TargetConfiguration(content, imports.value));
  }

  // ---------------------------------------------------------------------------
  // updateDeployment

  /** What `Deployments.Get` returns for an existing deployment. */
  datatype DeploymentInfo = DeploymentInfo(fingerprint: string, operation: Operation)

  /** The `deploymentmanager.Deployment` submitted by Insert or Update. */
  datatype DeploymentRequest = DeploymentRequest(name: string, target: TargetConfiguration, fingerprint: string)

  datatype Submission = Insert(request: DeploymentRequest) | Update(request: DeploymentRequest)

  datatype DeployError =
    | TargetFailed(targetError: TargetError)
    | InsertFailed(insertError: ApiError)
    | UpdateFailed(updateError: ApiError)
    | WaitFailed(wait: WaitOutcome)

  /** What one reconcile submitted, which operation it waited for, and how it ended. */
  datatype Reconcile = Reconcile(submitted: seq<Submission>, awaited: Option<string>, result: Outcome<DeployError>)

  /** The result of waiting for `opName` against the observations `polls`. */
  function Awaited(submitted: seq<Submission>, opName: string, polls: seq<Observation>): (r: Reconcile)
    ensures r.submitted == submitted && r.awaited == Some(opName)
    ensures r.result.Pass? <==> Wait(opName, polls) == Done
  {
    var w := Wait(opName, polls);
    Reconcile(submitted, Some(opName), if w == Done then Pass else Fail(WaitFailed(w)))
  }

  /**
   * `updateDeployment`: `target` is the outcome of `generateTarget`, `get` that of
   * `Deployments.Get`, `submit` the operation name (or error) that Insert or Update
   * returns, and `polls` what `blockingWait` then observes.
   */
  function UpdateDeployment(deployment: string, target: Result<TargetConfiguration, TargetError>,
                            get: Result<DeploymentInfo, ApiError>, submit: Result<string, ApiError>,
                            polls: seq<Observation>): (r: Reconcile)
    // A target that cannot be built stops everything before the provider is asked.
    ensures target.Err? ==> r == Reconcile([], None, Fail(TargetFailed(target.error)))
    // Found and idle: one Update carrying the fingerprint, then its operation is awaited.
    ensures target.Ok? && get.Ok? && get.value.operation.status == "DONE" ==>
              && r.submitted == [Update(DeploymentRequest(deployment, target.value, get.value.fingerprint))]
              && r.awaited == (if submit.Ok? then Some(submit.value) else None)
              && (submit.Err? ==> r.result == Fail(UpdateFailed(submit.error)))
    // Found and busy: nothing is submitted; the running operation is awaited.
    ensures target.Ok? && get.Ok? && get.value.operation.status != "DONE" ==>
              r.submitted == [] && r.awaited == Some(get.value.operation.name)
    // Not found (any Get error): one Insert, then its operation is awaited.
    ensures target.Ok? && get.Err? ==>
              && r.submitted == [Insert(DeploymentRequest(deployment, target.value, ""))]
              && r.awaited == (if submit.Ok? then Some(submit.value) else None)
              && (submit.Err? ==> r.result == Fail(InsertFailed(submit.error)))
    // Success means the awaited operation finished without an error code.
    ensures r.result.Pass? <==> r.awaited.Some? && Wait(r.awaited.value, polls) == Done
  {
    match target
    case Err(e) => Reconcile([], None, Fail(TargetFailed(e)))
    case Ok(t) =>
      match get
      case Ok(resp) =>
        var dp := DeploymentRequest(deployment, t, resp.fingerprint);
        if resp.operation.status == "DONE" then
          match submit
          case Err(e) => Reconcile([Update(dp)], None, Fail(UpdateFailed(e)))
          case Ok(opName) => Awaited([Update(dp)], opName, polls)
        else Awaited([], resp.operation.name, polls)
      case Err(_) =>
        var dp := DeploymentRequest(deployment, t, "");
        match submit
        case Err(e) => Reconcile([Insert(dp)], None, Fail(InsertFailed(e)))
        case Ok(opName) => Awaited([Insert(dp)], opName, polls)
  }

  /**
   * Two reconciles of the same deployment that both find its operation still
   * running submit nothing and both wait for that same operation.
   */
  lemma ConcurrentReconcileSharesOperation(deployment: string, t1: TargetConfiguration, t2: TargetConfiguration,
                                           info: DeploymentInfo, s1: Result<string, ApiError>,
                                           s2: Result<string, ApiError>, p1: seq<Observation>, p2: seq<Observation>)
    requires info.operation.status != "DONE"
    ensures UpdateDeployment(deployment, Ok(t1), Ok(info), s1, p1).submitted == []
    ensures UpdateDeployment(deployment, Ok(t1), Ok(info), s1, p1).awaited ==
            UpdateDeployment(deployment, Ok(t2), Ok(info), s2, p2).awaited
  {
  }

  /**
   * Two reconciles of the same deployment that both see Get fail each submit an
   * Insert: nothing limits the inserts to one across concurrent reconciles.
   */
  lemma ConcurrentMissesBothInsert(deployment: string, t1: TargetConfiguration, t2: TargetConfiguration,
                                   e1: ApiError, e2: ApiError, s1: Result<string, ApiError>,
                                   s2: Result<string, ApiError>, p1: seq<Observation>, p2: seq<Observation>)
    ensures UpdateDeployment(deployment, Ok(t1), Err(e1), s1, p1).submitted +
            UpdateDeployment(deployment, Ok(t2), Err(e2), s2, p2).submitted ==
            [Insert(DeploymentRequest(deployment, t1, "")), Insert(DeploymentRequest(deployment, t2, ""))]
  {
  }

  /** A reconcile submits at most once, and inserts only when Get fails. */
  lemma AtMostOneSubmission(deployment: string, target: Result<TargetConfiguration, TargetError>,
                            get: Result<DeploymentInfo, ApiError>, submit: Result<string, ApiError>,
                            polls: seq<Observation>)
    ensures |UpdateDeployment(deployment, target, get, submit, polls).submitted| <= 1
    ensures forall s :: s in UpdateDeployment(deployment, target, get, submit, polls).submitted && s.Insert? ==>
              get.Err?
  {
  }

  // ---------------------------------------------------------------------------
  // deleteDeployment

  datatype DeleteError =
    | GetFailed(getError: ApiError)
    | DeleteFailed(deleteError: ApiError)
    | DeleteWaitFailed(wait: WaitOutcome)

  /** Whether a Delete was issued, which operation was awaited, and how it ended. */
  datatype Deletion = Deletion(deleteIssued: bool, awaited: Option<string>, result: Outcome<DeleteError>)

  /** The provider's answers for one deployment during `Delete`. */
  datatype DeleteResponses = DeleteResponses(get: Result<DeploymentInfo, ApiError>, delete: Result<string, ApiError>,
                                             polls: seq<Observation>)

  /** `deleteDeployment`: a deployment that is not found (404) counts as deleted. */
  function DeleteDeployment(resp: DeleteResponses): (r: Deletion)
    ensures resp.get.Err? && resp.get.error.code == 404 ==> r == Deletion(false, None, Pass)
    ensures resp.get.Err? && resp.get.error.code != 404 ==> r == Deletion(false, None, Fail(GetFailed(resp.get.error)))
    ensures resp.get.Ok? ==>
              && r.deleteIssued
              && r.awaited == (if resp.delete.Ok? then Some(resp.delete.value) else None)
              && (resp.delete.Err? ==> r.result == Fail(DeleteFailed(resp.delete.error)))
              && (r.result.Pass? <==> resp.delete.Ok? && Wait(resp.delete.value, resp.polls) == Done)
  {
    match resp.get
    case Err(e) => if e.code == 404 then Deletion(false, None, Pass) else Deletion(false, None, Fail(GetFailed(e)))
    case Ok(_) =>
      match resp.delete
      case Err(e) => Deletion(true, None, Fail(DeleteFailed(e)))
      case Ok(opName) =>
        var w := Wait(opName, resp.polls);
        Deletion(true, Some(opName), if w == Done then Pass else Fail(DeleteWaitFailed(w)))
  }

  // ---------------------------------------------------------------------------
  // The deployments of one application

  /**
   * The four deployments: cluster and storage are always created; network and
   * gcfs when `<appDir>/network.yaml` and `<appDir>/gcfs.yaml` exist.
   */
  datatype Group = Cluster | Storage | Network | Gcfs

  /** The deployment name of a group of application `app`. */
  function DeploymentName(app: string, g: Group): string
  {
    match g
    case Cluster => app
    case Storage => app + "-storage"
    case Network => app + "-network"
    case Gcfs => app + "-gcfs"
  }

  /** The config file of a group under `gcp_config`. */
  function ConfigFile(g: Group): string
  {
    match g
    case Cluster => "cluster-kubeflow.yaml"
    case Storage => "storage-kubeflow.yaml"
    case Network => "network.yaml"
    case Gcfs => "gcfs.yaml"
  }

  /** Distinct groups have distinct deployment names. */
  lemma DeploymentNamesDistinct(app: string, g: Group, h: Group)
    requires g != h
    ensures DeploymentName(app, g) != DeploymentName(app, h)
  {
    var a, b := DeploymentName(app, g), DeploymentName(app, h);
    if |a| == |b| {
      assert {g, h} == {Storage, Network};
      assert a[|app| + 1] != b[|app| + 1];
    }
  }

  /** Position of a group in `updateDM`: storage, cluster, network, gcfs. */
  function ApplyRank(g: Group): nat
  {
    match g
    case Storage => 0
    case Cluster => 1
    case Network => 2
    case Gcfs => 3
  }

  /** Position of a group in `Delete`: cluster, storage, network, gcfs. */
  function DeleteRank(g: Group): nat
  {
    match g
    case Cluster => 0
    case Storage => 1
    case Network => 2
    case Gcfs => 3
  }

  /**
   * The groups `updateDM` reconciles, in its order.
   *
   * `networkExists` and `gcfsExists` stand for `!os.IsNotExist(err)` of the
   * `os.Stat` of `<appDir>/network.yaml` and `<appDir>/gcfs.yaml`, at the app
   * root and not under `gcp_config`: a stat that fails for any reason other
   * than absence (a permission error, say) counts as "exists".
   */
  function ApplyGroups(networkExists: bool, gcfsExists: bool): (r: seq<Group>)
    ensures |r| >= 2 && r[0] == Storage && r[1] == Cluster
    ensures Network in r <==> networkExists
    ensures Gcfs in r <==> gcfsExists
    ensures forall i, j :: 0 <= i < j < |r| ==> ApplyRank(r[i]) < ApplyRank(r[j])
  {
    [Storage, Cluster] + (if networkExists then [Network] else []) + (if gcfsExists then [Gcfs] else [])
  }

  /**
   * The deployments `Delete` removes, in its order.
   *
   * `networkExists` and `gcfsExists` stand for `!os.IsNotExist(err)` of the
   * `os.Stat` of `<appDir>/network.yaml` and `<appDir>/gcfs.yaml`, at the app
   * root and not under `gcp_config`: a stat that fails for any reason other
   * than absence (a permission error, say) counts as "exists".
   */
  function DeletionTargets(deleteStorage: bool, networkExists: bool, gcfsExists: bool): (r: seq<Group>)
    ensures Cluster in r
    ensures Storage in r <==> deleteStorage
    ensures Network in r <==> networkExists
    ensures Gcfs in r <==> gcfsExists
    ensures forall i, j :: 0 <= i < j < |r| ==> DeleteRank(r[i]) < DeleteRank(r[j])
  {
    [Cluster] + (if deleteStorage then [Storage] else []) + (if networkExists then [Network] else []) +
    (if gcfsExists then [Gcfs] else [])
  }

  /** `Delete` removes every group `updateDM` creates, storage only when asked to. */
  lemma DeletionMirrorsApply(deleteStorage: bool, networkExists: bool, gcfsExists: bool, g: Group)
    ensures g in DeletionTargets(deleteStorage, networkExists, gcfsExists) <==>
            g in ApplyGroups(networkExists, gcfsExists) && (g == Storage ==> deleteStorage)
  {
  }
}
