/**
 * `AddNamedContext`: after `gcloud container clusters get-credentials` has
 * written its `gke_<project>_<zone>_<cluster>` entries to the kubeconfig, the
 * deployer checks they are there and adds (or overrides) a context named after
 * the application, which it makes the current context.
 */
module KubeConfig {
  import opened Util
  import opened Strs

  const KubeconfigFormat := "gke_{project}_{zone}_{cluster}"

  /** The three single replacements applied to `KubeconfigFormat`. */
  function KubeconfigName(project: string, zone: string, cluster: string): string
  {
    var n := ReplaceFirst(KubeconfigFormat, "{project}", project);
    var n := ReplaceFirst(n, "{zone}", zone);
    ReplaceFirst(n, "{cluster}", cluster)
  }

  /** For project and zone names without `{`, this is the name gcloud gives its entries. */
  lemma KubeconfigNameShape(project: string, zone: string, cluster: string)
    requires forall i :: 0 <= i < |project| ==> project[i] != '{'
    requires forall i :: 0 <= i < |zone| ==> zone[i] != '{'
    ensures KubeconfigName(project, zone, cluster) == "gke_" + project + "_" + zone + "_" + cluster
  {
    ProjectStep(project, KubeconfigFormat);
    ZoneStep(project, zone, "gke_" + project + "_{zone}_{cluster}");
    ClusterStep(project, zone, cluster, "gke_" + project + "_" + zone + "_{cluster}");
  }

  /*
   * Here and in the two steps below, the string being rewritten is a
   * parameter pinned by `requires` rather than a literal: the solver then works
   * on the one split the proof spells out instead of unfolding `ReplaceFirst`
   * over the literal character by character.
   */
  lemma ProjectStep(project: string, format: string)
    requires format == KubeconfigFormat
    ensures ReplaceFirst(format, "{project}", project) == "gke_" + project + "_{zone}_{cluster}"
  {
    assert format == "gke_" + "{project}" + "_{zone}_{cluster}";
    ReplaceFirstAfter("gke_", "{project}", project, "_{zone}_{cluster}");
  }

  lemma ZoneStep(project: string, zone: string, n1: string)
    requires forall i :: 0 <= i < |project| ==> project[i] != '{'
    requires n1 == "gke_" + project + "_{zone}_{cluster}"
    ensures ReplaceFirst(n1, "{zone}", zone) == "gke_" + project + "_" + zone + "_{cluster}"
  {
    var pre := "gke_" + project + "_";
    assert n1 == pre + "{zone}" + "_{cluster}";
    ReplaceFirstAfter(pre, "{zone}", zone, "_{cluster}");
  }

  lemma ClusterStep(project: string, zone: string, cluster: string, n2: string)
    requires forall i :: 0 <= i < |project| ==> project[i] != '{'
    requires forall i :: 0 <= i < |zone| ==> zone[i] != '{'
    requires n2 == "gke_" + project + "_" + zone + "_{cluster}"
    ensures ReplaceFirst(n2, "{cluster}", cluster) == "gke_" + project + "_" + zone + "_" + cluster
  {
    var pre := "gke_" + project + "_" + zone + "_";
    assert n2 == pre + "{cluster}" + "";
    ReplaceFirstAfter(pre, "{cluster}", cluster, "");
  }

  /** One entry of a kubeconfig list: its `name`, when it has one, and the rest of it. */
  datatype Entry = Entry(name: Option<string>, body: map<string, string>)

  /** The parts of a kubeconfig the deployer reads or writes; a missing section is `None`. */
  datatype Config = Config(clusters: Option<seq<Entry>>, users: Option<seq<Entry>>,
                           contexts: Option<seq<Entry>>, currentContext: Option<string>)

  datatype KubeError =
    | ReadFailed(readReason: string)
    | UnmarshalFailed(parseReason: string)
    | SectionMissing(entryName: string)
    | EntryWithoutName
    | NameNotFound(name: string, section: string)
    | WriteFailed(writeReason: string)

  /** What `configNameChecker` decides for the entries of one section. */
  function ScanNames(entries: seq<Entry>, entryName: string, name: string): Outcome<KubeError>
    decreases |entries|
  {
    if entries == [] then Fail(NameNotFound(name, entryName))
    else if entries[0].name.None? then Fail(EntryWithoutName)
    else if entries[0].name.value == name then Pass
    else ScanNames(entries[1..], entryName, name)
  }

  function NameCheck(section: Option<seq<Entry>>, entryName: string, name: string): Outcome<KubeError>
  {
    if section.None? then Fail(SectionMissing(entryName)) else ScanNames(section.value, entryName, name)
  }

  /**
   * The check succeeds exactly when the section exists and some entry carries
   * `name` with every entry before it named.
   */
  lemma {:induction false} ScanNamesPass(entries: seq<Entry>, entryName: string, name: string)
    ensures ScanNames(entries, entryName, name).Pass? <==>
              exists i :: 0 <= i < |entries| && entries[i].name == Some(name) &&
                          forall j :: 0 <= j < i ==> entries[j].name.Some?
    decreases |entries|
  {
    if entries != [] && entries[0].name.Some? && entries[0].name.value != name {
      ScanNamesPass(entries[1..], entryName, name);
      if ScanNames(entries[1..], entryName, name).Pass? {
        var i :| 0 <= i < |entries[1..]| && entries[1..][i].name == Some(name) &&
                 forall j :: 0 <= j < i ==> entries[1..][j].name.Some?;
        assert entries[i + 1].name == Some(name);
        assert forall j :: 0 <= j < i + 1 ==> entries[j].name.Some? by {
          forall j | 0 <= j < i + 1 ensures entries[j].name.Some? {
            if j > 0 { assert entries[j] == entries[1..][j - 1]; }
          }
        }
      } else {
        forall i | 0 <= i < |entries| && entries[i].name == Some(name)
          ensures !(forall j :: 0 <= j < i ==> entries[j].name.Some?)
        {
          if i > 0 {
            assert entries[1..][i - 1] == entries[i];
          }
        }
      }
    } else if entries != [] && entries[0].name == Some(name) {
      assert entries[0].name == Some(name);
    }
  }

  /** `configNameChecker` as a loop. */
  method CheckName(entryName: string, section: Option<seq<Entry>>, name: string)
    returns (r: Outcome<KubeError>)
    ensures r == NameCheck(section, entryName, name)
  {
    if section.None? {
      return Fail(SectionMissing(entryName));
    }
    var entries := section.value;
    var i := 0;
    while i < |entries|
      invariant 0 <= i <= |entries|
      invariant ScanNames(entries[i..], entryName, name) == ScanNames(entries, entryName, name)
    {
      assert entries[i..][1..] == entries[i + 1..];
      if entries[i].name.Some? {
        if entries[i].name.value == name {
          return Pass;
        }
      } else {
        return Fail(EntryWithoutName);
      }
      i := i + 1;
    }
    r := Fail(NameNotFound(name, entryName));
  }

  /** The index of the first entry named `name`; entries without a name never match. */
  function FirstNamed(entries: seq<Entry>, name: string): (k: Option<nat>)
    ensures k.Some? ==> k.value < |entries| && entries[k.value].name == Some(name) &&
                        forall j :: 0 <= j < k.value ==> entries[j].name != Some(name)
    ensures k.None? ==> forall j :: 0 <= j < |entries| ==> entries[j].name != Some(name)
    decreases |entries|
  {
    if entries == [] then None
    else if entries[0].name == Some(name) then Some(0)
    else match FirstNamed(entries[1..], name)
      case None => None
      case Some(k) => Some(k + 1)
  }

  /** The context list after the override: the first context named `app` is dropped and `context` appended. */
  function Overridden(contexts: seq<Entry>, app: string, context: Entry): (r: seq<Entry>)
    ensures |r| > 0 && r[|r| - 1] == context
    ensures |r| == (if FirstNamed(contexts, app).Some? then |contexts| else |contexts| + 1)
    // Nothing named `app`: the contexts are kept as they are and `context` appended.
    ensures FirstNamed(contexts, app).None? ==> r[..|contexts|] == contexts
    // Otherwise the first context named `app` is the one removed; the rest keep their order.
    ensures FirstNamed(contexts, app).Some? ==>
              var k := FirstNamed(contexts, app).value;
              && (forall i :: 0 <= i < k ==> r[i] == contexts[i])
              && (forall i :: k <= i < |contexts| - 1 ==> r[i] == contexts[i + 1])
  {
    match FirstNamed(contexts, app)
    case None => contexts + [context]
    case Some(k) => contexts[..k] + contexts[k + 1..] + [context]
  }

  /** The override loop of `AddNamedContext`. */
  method ReplaceContext(contexts: seq<Entry>, app: string, context: Entry) returns (r: seq<Entry>)
    ensures r == Overridden(contexts, app, context)
  {
    r := contexts;
    var idx := 0;
    while idx < |contexts|
      invariant 0 <= idx <= |contexts|
      invariant forall j :: 0 <= j < idx ==> contexts[j].name != Some(app)
    {
      if contexts[idx].name == Some(app) {
        r := contexts[..idx] + contexts[idx + 1..];
        break;
      }
      idx := idx + 1;
    }
    r := r + [context];
  }

  ghost predicate AtMostOneNamed(entries: seq<Entry>, name: string)
  {
    forall i, j ::
      0 <= i < |entries| && 0 <= j < |entries| && entries[i].name == Some(name) && entries[j].name == Some(name)
      ==> i == j
  }

  /** The entries not named `name`, in their order. */
  function WithoutName(entries: seq<Entry>, name: string): seq<Entry>
    decreases |entries|
  {
    if entries == [] then []
    else (if entries[0].name == Some(name) then [] else [entries[0]]) + WithoutName(entries[1..], name)
  }

  lemma {:induction false} WithoutNameAppend(a: seq<Entry>, b: seq<Entry>, name: string)
    ensures WithoutName(a + b, name) == WithoutName(a, name) + WithoutName(b, name)
    decreases |a|
  {
    if a != [] {
      assert (a + b)[1..] == a[1..] + b;
      WithoutNameAppend(a[1..], b, name);
    } else {
      assert a + b == b;
    }
  }

  lemma {:induction false} WithoutNameNone(a: seq<Entry>, name: string)
    requires forall i :: 0 <= i < |a| ==> a[i].name != Some(name)
    ensures WithoutName(a, name) == a
    decreases |a|
  {
    if a != [] {
      WithoutNameNone(a[1..], name);
    }
  }

  /**
   * Overriding keeps the context list free of duplicates for `app`: when at most
   * one context was named `app`, afterwards only the appended one is, and the
   * contexts with other names are kept in their order, before it.
   */
  lemma OverrideLeavesOneContext(contexts: seq<Entry>, app: string, context: Entry)
    requires context.name == Some(app)
    requires AtMostOneNamed(contexts, app)
    ensures Overridden(contexts, app, context) == WithoutName(contexts, app) + [context]
    ensures var r := Overridden(contexts, app, context);
            forall i :: 0 <= i < |r| - 1 ==> r[i].name != Some(app)
  {
    var r := Overridden(contexts, app, context);
    var kept := WithoutName(contexts, app);
    match FirstNamed(contexts, app)
    case None =>
      WithoutNameNone(contexts, app);
      assert r == contexts + [context];
    case Some(k) =>
      RemovedIsOnlyNamed(contexts, app, k);
      assert r == contexts[..k] + contexts[k + 1..] + [context];
    assert r[..|r| - 1] == kept;
    NoneNamedInKept(contexts, app);
  }

  /** With a single context named `app`, at `k`, dropping it leaves the contexts with other names. */
  lemma RemovedIsOnlyNamed(contexts: seq<Entry>, app: string, k: nat)
    requires k < |contexts| && contexts[k].name == Some(app) && AtMostOneNamed(contexts, app)
    ensures WithoutName(contexts, app) == contexts[..k] + contexts[k + 1..]
  {
    var pre, post := contexts[..k], contexts[k + 1..];
    assert contexts == pre + [contexts[k]] + post;
    WithoutNameAppend(pre + [contexts[k]], post, app);
    WithoutNameAppend(pre, [contexts[k]], app);
    assert WithoutName([contexts[k]], app) == [];
    forall i | 0 <= i < |pre| ensures pre[i].name != Some(app) {
      assert pre[i] == contexts[i];
    }
    WithoutNameNone(pre, app);
    forall i | 0 <= i < |post| ensures post[i].name != Some(app) {
      assert post[i] == contexts[k + 1 + i];
    }
    WithoutNameNone(post, app);
  }

  /** No entry of `WithoutName(entries, name)` is called `name`. */
  lemma {:induction false} NoneNamedInKept(entries: seq<Entry>, name: string)
    ensures forall i :: 0 <= i < |WithoutName(entries, name)| ==> WithoutName(entries, name)[i].name != Some(name)
    decreases |entries|
  {
    if entries != [] {
      NoneNamedInKept(entries[1..], name);
      var head: seq<Entry> := if entries[0].name == Some(name) then [] else [entries[0]];
      var rest := WithoutName(entries[1..], name);
      assert WithoutName(entries, name) == head + rest;
      forall i | 0 <= i < |head + rest| ensures (head + rest)[i].name != Some(name) {
        if i >= |head| { assert (head + rest)[i] == rest[i - |head|]; }
      }
    }
  }

  /** The context entry `AddNamedContext` builds. */
  function NamedContext(app: string, kubeconfigName: string, namespace: string): Entry
  {
    Entry(Some(app), map["cluster" := kubeconfigName, "user" := kubeconfigName, "namespace" := namespace])
  }

  /** The three checks in order: clusters, users, contexts; the first failure is reported. */
  function CheckAll(c: Config, n: string): (r: Outcome<KubeError>)
    ensures r.Pass? <==> NameCheck(c.clusters, "clusters", n).Pass? && NameCheck(c.users, "users", n).Pass? &&
                         NameCheck(c.contexts, "contexts", n).Pass?
    ensures NameCheck(c.clusters, "clusters", n).Fail? ==> r == NameCheck(c.clusters, "clusters", n)
    ensures r.Pass? ==> c.clusters.Some? && c.users.Some? && c.contexts.Some?
  {
    if NameCheck(c.clusters, "clusters", n).Fail? then NameCheck(c.clusters, "clusters", n)
    else if NameCheck(c.users, "users", n).Fail? then NameCheck(c.users, "users", n)
    else NameCheck(c.contexts, "contexts", n)
  }

  /**
   * `AddNamedContext`. `file` is the result of reading and unmarshalling the
   * kubeconfig and `write` the outcome of marshalling and writing it back; the
   * returned configuration is what gets written.
   */
  method AddNamedContext(app: string, project: string, zone: string, namespace: string,
                         file: Result<Config, KubeError>, write: Outcome<string>)
    returns (r: Result<Config, KubeError>)
    ensures file.Err? ==> r == Err(file.error)
    ensures file.Ok? && CheckAll(file.value, KubeconfigName(project, zone, app)).Fail? ==>
              r == Err(CheckAll(file.value, KubeconfigName(project, zone, app)).error)
    ensures file.Ok? && CheckAll(file.value, KubeconfigName(project, zone, app)).Pass? ==>
              var c := file.value;
              var context := NamedContext(app, KubeconfigName(project, zone, app), namespace);
              if write.Fail? then r == Err(WriteFailed(write.error))
              else r == Ok(c.(contexts := Some(Overridden(c.contexts.value, app, context)), currentContext := Some(app)))
  {
    var n := KubeconfigName(project, zone, app);
    if file.Err? {
      return Err(file.error);
    }
    var c := file.value;
    var check := CheckName("clusters", c.clusters, n);
    if check.Fail? {
      return Err(check.error);
    }
    check := CheckName("users", c.users, n);
    if check.Fail? {
      return Err(check.error);
    }
    check := CheckName("contexts", c.contexts, n);
    if check.Fail? {
      return Err(check.error);
    }
    var context := NamedContext(app, n, namespace);
    var contexts := ReplaceContext(c.contexts.value, app, context);
    if write.Fail? {
      return Err(WriteFailed(write.error));
    }
    r := Ok(c.(contexts := Some(contexts), currentContext := Some(app)));
  }

  /**
   * After `AddNamedContext` succeeds the app's context is the current one and the
   * last in the list, and (given no duplicates before) the only one with its name.
   */
  lemma AddedContextIsCurrent(c: Config, app: string, n: string, namespace: string)
    requires c.contexts.Some? && AtMostOneNamed(c.contexts.value, app)
    ensures var after := Overridden(c.contexts.value, app, NamedContext(app, n, namespace));
            && after[|after| - 1].name == Some(app)
            && forall i :: 0 <= i < |after| - 1 ==> after[i].name != Some(app)
  {
    OverrideLeavesOneContext(c.contexts.value, app, NamedContext(app, n, namespace));
  }
}
