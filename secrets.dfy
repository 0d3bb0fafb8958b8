/**
 * `createSecrets` and its helpers: the Kubernetes secrets the deployer makes
 * sure of after the cluster is up. Each one is get-then-create (service-account
 * keys, the IAP OAuth client) or update-then-create (the basic-auth login).
 * The cluster is represented by the set of secrets a Get would find; a secret
 * written during the run is found by every later Get of the run.
 */
module Secrets {
  import opened Util
  import opened Identity

  const AdminSecretName := "admin-gcp-sa"
  const UserSecretName := "user-gcp-sa"
  const OauthSecretName := "kubeflow-oauth"
  const BasicAuthSecretName := "kubeflow-login"
  const IstioNamespace := "istio-system"

  /** A secret as written to the cluster. */
  datatype Secret = Secret(namespace: string, name: string, data: map<string, string>)

  /** A service-account key secret to ensure: whose key, under which name, in which namespace. */
  datatype SecretRequest = SecretRequest(email: string, secretName: string, namespace: string)

  datatype SecretsError =
    | ClientFailed(clientReason: string)
    | CannotCreateSecret(secretName: string, cause: string)
    | BasicAuthFailed(basicReason: string)
    | IapFailed(iapReason: string)

  /**
   * How far a run got: the secrets written (created or updated), the requests
   * for which a new key was asked for (`iam.New`, `Keys.Create` and the decoding
   * were attempted, whether or not they succeeded), and how it ended.
   */
  datatype Run = Run(written: seq<Secret>, attempted: seq<SecretRequest>, result: Outcome<SecretsError>)

  /** The (namespace, name) pairs of written secrets: what later Gets find. */
  function WrittenKeys(written: seq<Secret>): set<(string, string)>
  {
    set s | s in written :: (s.namespace, s.name)
  }

  /** `present` holds the (namespace, name) pairs for which a Get succeeds. */
  ghost predicate Available(namespace: string, name: string, present: set<(string, string)>, written: seq<Secret>)
  {
    (namespace, name) in present || exists s :: s in written && s.namespace == namespace && s.name == name
  }

  /**
   * `createGcpServiceAcctSecret`: nothing happens when the secret exists;
   * otherwise a key is asked for (`keys` folds the OAuth client, key creation and
   * base64 decoding into one outcome) and stored under `<name>.json`.
   * `keys` answers per email, so two requests for the same account (the copy
   * in `istio-system`) get the same key and share its outcome.
   */
  function EnsureServiceAccountSecret(q: SecretRequest, present: set<(string, string)>,
                                      keys: string -> Result<string, string>,
                                      insert: (string, string) -> Outcome<string>): (r: Run)
    ensures (q.namespace, q.secretName) in present ==> r == Run([], [], Pass)
    ensures (q.namespace, q.secretName) !in present ==> r.attempted == [q]
    ensures r.result.Pass? <==>
              (q.namespace, q.secretName) in present ||
              (keys(q.email).Ok? && insert(q.namespace, q.secretName).Pass?)
    ensures r.result.Pass? ==> Available(q.namespace, q.secretName, present, r.written)
    ensures forall s :: s in r.written ==>
              && keys(q.email).Ok?
              && s == Secret(q.namespace, q.secretName, map[q.secretName + ".json" := keys(q.email).value])
  {
    if (q.namespace, q.secretName) in present then Run([], [], Pass)
    else match keys(q.email)
      case Err(e) => Run([], [q], Fail(CannotCreateSecret(q.secretName, e)))
      case Ok(key) =>
        var s := Secret(q.namespace, q.secretName, map[q.secretName + ".json" := key]);
        match insert(q.namespace, q.secretName)
        case Pass => Run([s], [q], Pass)
        case Fail(e) => Run([], [q], Fail(CannotCreateSecret(q.secretName, e)))
  }

  /**
   * The service-account secrets in the order `createSecrets` ensures them,
   * stopping at the first failure. Each request's Get sees the secrets the
   * earlier requests wrote, so no key is asked for twice for the same secret.
   */
  function EnsureServiceAccountSecrets(plan: seq<SecretRequest>, present: set<(string, string)>,
                                       keys: string -> Result<string, string>,
                                       insert: (string, string) -> Outcome<string>): (r: Run)
    ensures forall q :: q in r.attempted ==> q in plan && (q.namespace, q.secretName) !in present
    ensures forall i, j :: 0 <= i < j < |r.attempted| ==>
              (r.attempted[i].namespace, r.attempted[i].secretName) != (r.attempted[j].namespace, r.attempted[j].secretName)
    ensures forall s :: s in r.written ==> exists q :: q in plan && s.namespace == q.namespace && s.name == q.secretName
    ensures forall s :: s in r.written ==> (s.namespace, s.name) !in present
    decreases |plan|
  {
    if plan == [] then Run([], [], Pass)
    else
      var one := EnsureServiceAccountSecret(plan[0], present, keys, insert);
      if one.result.Fail? then one
      else
        var rest := EnsureServiceAccountSecrets(plan[1..], present + WrittenKeys(one.written), keys, insert);
        assert forall q :: q in plan[1..] ==> q in plan;
        AttemptedAfterWrite(plan[0], present, keys, insert, one);
        Run(one.written + rest.written, one.attempted + rest.attempted, rest.result)
  }

  /** A passing attempt wrote its secret, so later Gets of the run find it. */
  lemma AttemptedAfterWrite(q: SecretRequest, present: set<(string, string)>,
                            keys: string -> Result<string, string>, insert: (string, string) -> Outcome<string>,
                            one: Run)
    requires one == EnsureServiceAccountSecret(q, present, keys, insert) && one.result.Pass?
    ensures forall p :: p in one.attempted ==> (p.namespace, p.secretName) in WrittenKeys(one.written)
  {
    if (q.namespace, q.secretName) !in present {
      assert one.written[0] in one.written;
    }
  }

  /** What is available after the first part of a run stays available after the whole. */
  lemma AvailableThrough(namespace: string, name: string, present: set<(string, string)>, first: seq<Secret>,
                         later: seq<Secret>)
    requires Available(namespace, name, present + WrittenKeys(first), later)
    ensures Available(namespace, name, present, first + later)
  {
    if (namespace, name) !in present {
      if (namespace, name) in WrittenKeys(first) {
        var s :| s in first && (s.namespace, s.name) == (namespace, name);
        assert s in first + later;
      } else {
        var s :| s in later && s.namespace == namespace && s.name == name;
        assert s in first + later;
      }
    }
  }

  /** After a successful run every requested secret is found or was written. */
  lemma {:induction false} EnsuredSecretsAvailable(plan: seq<SecretRequest>, present: set<(string, string)>,
                                                   keys: string -> Result<string, string>,
                                                   insert: (string, string) -> Outcome<string>)
    requires EnsureServiceAccountSecrets(plan, present, keys, insert).result.Pass?
    ensures forall q :: q in plan ==>
              Available(q.namespace, q.secretName, present, EnsureServiceAccountSecrets(plan, present, keys, insert).written)
    decreases |plan|
  {
    if plan != [] {
      var one := EnsureServiceAccountSecret(plan[0], present, keys, insert);
      var present' := present + WrittenKeys(one.written);
      var rest := EnsureServiceAccountSecrets(plan[1..], present', keys, insert);
      EnsuredSecretsAvailable(plan[1..], present', keys, insert);
      var written := EnsureServiceAccountSecrets(plan, present, keys, insert).written;
      assert written == one.written + rest.written;
      forall q | q in plan ensures Available(q.namespace, q.secretName, present, written) {
        if q == plan[0] {
          if (q.namespace, q.secretName) !in present {
            var s :| s in one.written && s.namespace == q.namespace && s.name == q.secretName;
            assert s in written;
          }
        } else {
          assert q in plan[1..];
          AvailableThrough(q.namespace, q.secretName, present, one.written, rest.written);
        }
      }
    }
  }

  /** The admin and user key secrets in the app's namespace, and in `istio-system` too when Istio is used. */
  function ServiceAccountSecretPlan(app: string, project: string, namespace: string, useIstio: bool): (plan: seq<SecretRequest>)
    ensures SecretRequest(ServiceAccount(app, "admin", project), AdminSecretName, namespace) in plan
    ensures SecretRequest(ServiceAccount(app, "user", project), UserSecretName, namespace) in plan
    ensures useIstio ==> SecretRequest(ServiceAccount(app, "admin", project), AdminSecretName, IstioNamespace) in plan
    ensures useIstio ==> SecretRequest(ServiceAccount(app, "user", project), UserSecretName, IstioNamespace) in plan
    ensures forall q :: q in plan ==> q.namespace == namespace || (useIstio && q.namespace == IstioNamespace)
    ensures forall q :: q in plan ==>
              (q.secretName == AdminSecretName && q.email == ServiceAccount(app, "admin", project)) ||
              (q.secretName == UserSecretName && q.email == ServiceAccount(app, "user", project))
  {
    var admin := ServiceAccount(app, "admin", project);
    var user := ServiceAccount(app, "user", project);
    [SecretRequest(admin, AdminSecretName, namespace), SecretRequest(user, UserSecretName, namespace)] +
    (if useIstio then [SecretRequest(admin, AdminSecretName, IstioNamespace),
                       SecretRequest(user, UserSecretName, IstioNamespace)] else [])
  }

  /** The namespace of the IAP OAuth secret. */
  function OauthNamespace(namespace: string, useIstio: bool): (ns: string)
    ensures useIstio ==> ns == IstioNamespace
    ensures !useIstio ==> ns == namespace
  {
    if useIstio then IstioNamespace else namespace
  }

  /** `createIapSecret`: get-then-create of the OAuth client id and secret. */
  function EnsureIapSecret(namespace: string, useIstio: bool, oauthId: string, oauthSecret: string,
                           present: set<(string, string)>, insert: (string, string) -> Outcome<string>): (r: Run)
    ensures r.attempted == []
    ensures var ns := OauthNamespace(namespace, useIstio);
            && ((ns, OauthSecretName) in present ==> r == Run([], [], Pass))
            && (r.result.Pass? <==> (ns, OauthSecretName) in present || insert(ns, OauthSecretName).Pass?)
            && (r.result.Pass? ==> Available(ns, OauthSecretName, present, r.written))
  {
    var ns := OauthNamespace(namespace, useIstio);
    if (ns, OauthSecretName) in present then Run([], [], Pass)
    else
      var s := Secret(ns, OauthSecretName, map["client_id" := oauthId, "client_secret" := oauthSecret]);
      match insert(ns, OauthSecretName)
      case Pass => Run([s], [], Pass)
      case Fail(e) => Run([], [], Fail(IapFailed(e)))
  }

  /** `createBasicAuthSecret`: an Update, and a Create only when the Update fails. */
  function EnsureBasicAuthSecret(namespace: string, username: string, passwordHash: string,
                                 update: Outcome<string>, create: Outcome<string>): (r: Run)
    ensures r.attempted == []
    ensures r.result.Pass? <==> update.Pass? || create.Pass?
    ensures update.Fail? && create.Fail? ==> r.result == Fail(BasicAuthFailed(create.error))
    ensures r.result.Pass? ==>
              r.written == [Secret(namespace, BasicAuthSecretName,
                                   map["username" := username, "passwordhash" := passwordHash])]
  {
    var s := Secret(namespace, BasicAuthSecretName, map["username" := username, "passwordhash" := passwordHash]);
    if update.Pass? then Run([s], [], Pass)
    else match create
      case Pass => Run([s], [], Pass)
      case Fail(e) => Run([], [], Fail(BasicAuthFailed(e)))
  }

  /** The cluster's answers during `createSecrets`. */
  datatype ClusterResponses = ClusterResponses(client: Outcome<string>, present: set<(string, string)>,
                                               keys: string -> Result<string, string>,
                                               insert: (string, string) -> Outcome<string>,
                                               basicUpdate: Outcome<string>, basicCreate: Outcome<string>)

  /** The deployment's settings that `createSecrets` reads. */
  datatype SecretSettings = SecretSettings(app: string, project: string, namespace: string, useIstio: bool,
                                           useBasicAuth: bool, username: string, passwordHash: string,
                                           oauthId: string, oauthSecret: string)

  /**
   * `createSecrets`: the key secrets, then either the basic-auth login or the
   * IAP OAuth secret, whose Get also sees the key secrets just written.
   */
  function CreateSecrets(c: SecretSettings, k: ClusterResponses): (r: Run)
    ensures k.client.Fail? ==> r == Run([], [], Fail(ClientFailed(k.client.error)))
    // Keys are asked for only for admin or user secrets that were missing, and never twice for one secret.
    ensures forall q :: q in r.attempted ==>
              (q.namespace, q.secretName) !in k.present &&
              (q.secretName == AdminSecretName || q.secretName == UserSecretName)
    ensures forall i, j :: 0 <= i < j < |r.attempted| ==>
              (r.attempted[i].namespace, r.attempted[i].secretName) != (r.attempted[j].namespace, r.attempted[j].secretName)
  {
    if k.client.Fail? then Run([], [], Fail(ClientFailed(k.client.error)))
    else
      var sa := EnsureServiceAccountSecrets(ServiceAccountSecretPlan(c.app, c.project, c.namespace, c.useIstio),
                                            k.present, k.keys, k.insert);
      if sa.result.Fail? then sa
      else
        var auth := if c.useBasicAuth then EnsureBasicAuthSecret(c.namespace, c.username, c.passwordHash,
                                                                 k.basicUpdate, k.basicCreate)
                    else EnsureIapSecret(c.namespace, c.useIstio, c.oauthId, c.oauthSecret,
                                         k.present + WrittenKeys(sa.written), k.insert);
        Run(sa.written + auth.written, sa.attempted + auth.attempted, auth.result)
  }

  /** The parts `CreateSecrets` combines once the client and the key secrets succeeded. */
  lemma CreateSecretsParts(c: SecretSettings, k: ClusterResponses) returns (sa: Run, auth: Run)
    requires k.client.Pass?
    ensures sa == EnsureServiceAccountSecrets(ServiceAccountSecretPlan(c.app, c.project, c.namespace, c.useIstio),
                                              k.present, k.keys, k.insert)
    ensures sa.result.Fail? ==> CreateSecrets(c, k) == sa
    ensures c.useBasicAuth ==> auth == EnsureBasicAuthSecret(c.namespace, c.username, c.passwordHash,
                                                             k.basicUpdate, k.basicCreate)
    ensures !c.useBasicAuth ==> auth == EnsureIapSecret(c.namespace, c.useIstio, c.oauthId, c.oauthSecret,
                                                         k.present + WrittenKeys(sa.written), k.insert)
    ensures sa.result.Pass? ==>
              CreateSecrets(c, k) == Run(sa.written + auth.written, sa.attempted + auth.attempted, auth.result)
  {
    sa := EnsureServiceAccountSecrets(ServiceAccountSecretPlan(c.app, c.project, c.namespace, c.useIstio),
                                      k.present, k.keys, k.insert);
    auth := if c.useBasicAuth then EnsureBasicAuthSecret(c.namespace, c.username, c.passwordHash,
                                                         k.basicUpdate, k.basicCreate)
            else EnsureIapSecret(c.namespace, c.useIstio, c.oauthId, c.oauthSecret,
                                 k.present + WrittenKeys(sa.written), k.insert);
  }

  /** The first request for each secret not yet present, in plan order. */
  function FirstRequests(plan: seq<SecretRequest>, present: set<(string, string)>): seq<SecretRequest>
    decreases |plan|
  {
    if plan == [] then []
    else if (plan[0].namespace, plan[0].secretName) in present then FirstRequests(plan[1..], present)
    else [plan[0]] + FirstRequests(plan[1..], present + {(plan[0].namespace, plan[0].secretName)})
  }

  /**
   * When every key and every Create succeeds, the run passes and asks for a
   * key exactly for the first request of each secret that is not present.
   */
  lemma {:induction false} AllSucceedAttemptsFirstRequests(plan: seq<SecretRequest>, present: set<(string, string)>,
                                                           keys: string -> Result<string, string>,
                                                           insert: (string, string) -> Outcome<string>)
    requires forall e :: keys(e).Ok?
    requires forall ns, n :: insert(ns, n).Pass?
    ensures EnsureServiceAccountSecrets(plan, present, keys, insert).result.Pass?
    ensures EnsureServiceAccountSecrets(plan, present, keys, insert).attempted == FirstRequests(plan, present)
    decreases |plan|
  {
    if plan != [] {
      var q := plan[0];
      var key := (q.namespace, q.secretName);
      var one := EnsureServiceAccountSecret(q, present, keys, insert);
      OneSucceeds(q, present, keys, insert);
      var present' := present + WrittenKeys(one.written);
      AllSucceedAttemptsFirstRequests(plan[1..], present', keys, insert);
      var rest := EnsureServiceAccountSecrets(plan[1..], present', keys, insert);
      assert EnsureServiceAccountSecrets(plan, present, keys, insert) ==
             Run(one.written + rest.written, one.attempted + rest.attempted, rest.result);
      if key in present {
        assert present' == present;
        assert FirstRequests(plan, present) == FirstRequests(plan[1..], present);
      } else {
        assert present' == present + {key};
        assert FirstRequests(plan, present) == [q] + FirstRequests(plan[1..], present + {key});
      }
    }
  }

  /**
   * The key secrets succeed exactly when the key and the Create succeed for
   * every request that finds its secret missing, earlier writes included.
   */
  lemma {:induction false} ServiceAccountSecretsPassIff(plan: seq<SecretRequest>, present: set<(string, string)>,
                                                        keys: string -> Result<string, string>,
                                                        insert: (string, string) -> Outcome<string>)
    ensures EnsureServiceAccountSecrets(plan, present, keys, insert).result.Pass? <==>
            forall q :: q in FirstRequests(plan, present) ==> keys(q.email).Ok? && insert(q.namespace, q.secretName).Pass?
    decreases |plan|
  {
    if plan != [] {
      var q := plan[0];
      var key := (q.namespace, q.secretName);
      var one := EnsureServiceAccountSecret(q, present, keys, insert);
      OneWrites(q, present, keys, insert);
      if one.result.Pass? {
        var present' := present + WrittenKeys(one.written);
        ServiceAccountSecretsPassIff(plan[1..], present', keys, insert);
        if key in present {
          assert present' == present;
        } else {
          assert present' == present + {key};
        }
      } else {
        assert key !in present && q in FirstRequests(plan, present);
      }
    }
  }

  /** What one request leaves for the later Gets of the run. */
  lemma OneWrites(q: SecretRequest, present: set<(string, string)>,
                  keys: string -> Result<string, string>, insert: (string, string) -> Outcome<string>)
    ensures var one := EnsureServiceAccountSecret(q, present, keys, insert);
            && ((q.namespace, q.secretName) in present ==> WrittenKeys(one.written) == {})
            && ((q.namespace, q.secretName) !in present && one.result.Pass? ==>
                  WrittenKeys(one.written) == {(q.namespace, q.secretName)})
  {
    var one := EnsureServiceAccountSecret(q, present, keys, insert);
    if (q.namespace, q.secretName) !in present && one.result.Pass? {
      assert one.written == [Secret(q.namespace, q.secretName, map[q.secretName + ".json" := keys(q.email).value])];
      assert one.written[0] in one.written;
    }
  }

  /** A failing key or Create for a missing key secret fails `createSecrets`. */
  lemma KeyFailureFailsCreateSecrets(c: SecretSettings, k: ClusterResponses, q: SecretRequest)
    requires q in FirstRequests(ServiceAccountSecretPlan(c.app, c.project, c.namespace, c.useIstio), k.present)
    requires k.keys(q.email).Err? || k.insert(q.namespace, q.secretName).Fail?
    ensures CreateSecrets(c, k).result.Fail?
  {
    ServiceAccountSecretsPassIff(ServiceAccountSecretPlan(c.app, c.project, c.namespace, c.useIstio), k.present,
                                 k.keys, k.insert);
  }

  /** One request on a cluster where every key and Create succeeds. */
  lemma OneSucceeds(q: SecretRequest, present: set<(string, string)>,
                    keys: string -> Result<string, string>, insert: (string, string) -> Outcome<string>)
    requires keys(q.email).Ok? && insert(q.namespace, q.secretName).Pass?
    ensures var one := EnsureServiceAccountSecret(q, present, keys, insert);
            && one.result.Pass?
            && one.attempted == (if (q.namespace, q.secretName) in present then [] else [q])
            && WrittenKeys(one.written) == (if (q.namespace, q.secretName) in present then {} else {(q.namespace, q.secretName)})
  {
    var one := EnsureServiceAccountSecret(q, present, keys, insert);
    if (q.namespace, q.secretName) !in present {
      assert one.written == [Secret(q.namespace, q.secretName, map[q.secretName + ".json" := keys(q.email).value])];
      assert one.written[0] in one.written;
    }
  }

  /**
   * On an empty cluster where every key and Create succeeds, a key is asked
   * for once per requested secret: four times under Istio, but only twice when
   * the app namespace is `istio-system` itself, since the second pair of Gets
   * finds the secrets the first pair wrote.
   */
  lemma KeysAskedOncePerSecret(c: SecretSettings, k: ClusterResponses)
    requires k.client.Pass? && k.present == {}
    requires forall e :: k.keys(e).Ok?
    requires forall ns, n :: k.insert(ns, n).Pass?
    ensures c.useIstio && c.namespace != IstioNamespace ==>
              CreateSecrets(c, k).attempted == ServiceAccountSecretPlan(c.app, c.project, c.namespace, c.useIstio)
    ensures c.useIstio && c.namespace == IstioNamespace ==>
              CreateSecrets(c, k).attempted == ServiceAccountSecretPlan(c.app, c.project, c.namespace, c.useIstio)[..2]
  {
    var sa, auth := CreateSecretsParts(c, k);
    var plan := ServiceAccountSecretPlan(c.app, c.project, c.namespace, c.useIstio);
    AllSucceedAttemptsFirstRequests(plan, {}, k.keys, k.insert);
    assert auth.attempted == [];
    assert CreateSecrets(c, k).attempted == FirstRequests(plan, {});
    if c.useIstio {
      IstioPlanFirstRequests(c.app, c.project, c.namespace);
    }
  }

  /** Which requests of the Istio plan find no secret written before them. */
  lemma IstioPlanFirstRequests(app: string, project: string, namespace: string)
    ensures var plan := ServiceAccountSecretPlan(app, project, namespace, true);
            FirstRequests(plan, {}) == if namespace == IstioNamespace then plan[..2] else plan
  {
    var plan := ServiceAccountSecretPlan(app, project, namespace, true);
    var admin := ServiceAccount(app, "admin", project);
    var user := ServiceAccount(app, "user", project);
    var a0, u0 := SecretRequest(admin, AdminSecretName, namespace), SecretRequest(user, UserSecretName, namespace);
    var a1, u1 := SecretRequest(admin, AdminSecretName, IstioNamespace), SecretRequest(user, UserSecretName, IstioNamespace);
    assert plan == [a0, u0, a1, u1];
    FourRequests(a0, u0, a1, u1);
  }

  /**
   * Four requests for the secrets `a0`, `u0`, `a1`, `u1`, the first two
   * different: the last two are skipped when they repeat the first two, and
   * kept when all four are different.
   */
  lemma FourRequests(a0: SecretRequest, u0: SecretRequest, a1: SecretRequest, u1: SecretRequest)
    requires a0.secretName == a1.secretName && u0.secretName == u1.secretName && a0.secretName != u0.secretName
    requires a0.namespace == u0.namespace && a1.namespace == u1.namespace
    ensures a0.namespace == a1.namespace ==> FirstRequests([a0, u0, a1, u1], {}) == [a0, u0]
    ensures a0.namespace != a1.namespace ==> FirstRequests([a0, u0, a1, u1], {}) == [a0, u0, a1, u1]
  {
    var w0: set<(string, string)> := {(a0.namespace, a0.secretName)};
    var w1 := w0 + {(u0.namespace, u0.secretName)};
    var w2 := w1 + {(a1.namespace, a1.secretName)};
    FirstRequestsStep(a0, [u0, a1, u1], {});
    assert {} + {(a0.namespace, a0.secretName)} == w0;
    FirstRequestsStep(u0, [a1, u1], w0);
    FirstRequestsStep(a1, [u1], w1);
    if a0.namespace == a1.namespace {
      FirstRequestsStep(u1, [], w1);
    } else {
      FirstRequestsStep(u1, [], w2);
    }
  }

  /** One step of `FirstRequests`. */
  lemma FirstRequestsStep(q: SecretRequest, rest: seq<SecretRequest>, present: set<(string, string)>)
    ensures FirstRequests([q] + rest, present) ==
            if (q.namespace, q.secretName) in present then FirstRequests(rest, present)
            else [q] + FirstRequests(rest, present + {(q.namespace, q.secretName)})
  {
    assert ([q] + rest)[1..] == rest;
  }

  /** A successful `createSecrets` leaves the key secrets in place, in both namespaces when Istio is used. */
  lemma KeySecretsInPlace(c: SecretSettings, k: ClusterResponses)
    requires CreateSecrets(c, k).result.Pass?
    ensures var w := CreateSecrets(c, k).written;
            && Available(c.namespace, AdminSecretName, k.present, w)
            && Available(c.namespace, UserSecretName, k.present, w)
            && (c.useIstio ==> Available(IstioNamespace, AdminSecretName, k.present, w) &&
                               Available(IstioNamespace, UserSecretName, k.present, w))
  {
    var sa, auth := CreateSecretsParts(c, k);
    var plan := ServiceAccountSecretPlan(c.app, c.project, c.namespace, c.useIstio);
    KeyRequestsAvailable(plan, c.app, c.project, c.namespace, c.useIstio, k.present, sa.written, k.keys, k.insert);
    AvailableAppended(c.namespace, AdminSecretName, k.present, sa.written, auth.written);
    AvailableAppended(c.namespace, UserSecretName, k.present, sa.written, auth.written);
    AvailableAppended(IstioNamespace, AdminSecretName, k.present, sa.written, auth.written);
    AvailableAppended(IstioNamespace, UserSecretName, k.present, sa.written, auth.written);
  }

  lemma KeyRequestsAvailable(plan: seq<SecretRequest>, app: string, project: string, namespace: string, useIstio: bool,
                             present: set<(string, string)>, written: seq<Secret>,
                             keys: string -> Result<string, string>, insert: (string, string) -> Outcome<string>)
    requires plan == ServiceAccountSecretPlan(app, project, namespace, useIstio)
    requires EnsureServiceAccountSecrets(plan, present, keys, insert).result.Pass?
    requires written == EnsureServiceAccountSecrets(plan, present, keys, insert).written
    ensures Available(namespace, AdminSecretName, present, written)
    ensures Available(namespace, UserSecretName, present, written)
    ensures useIstio ==> Available(IstioNamespace, AdminSecretName, present, written) &&
                         Available(IstioNamespace, UserSecretName, present, written)
  {
    EnsuredSecretsAvailable(plan, present, keys, insert);
    var admin := ServiceAccount(app, "admin", project);
    var user := ServiceAccount(app, "user", project);
    assert SecretRequest(admin, AdminSecretName, namespace) in plan;
    assert SecretRequest(user, UserSecretName, namespace) in plan;
    if useIstio {
      assert SecretRequest(admin, AdminSecretName, IstioNamespace) in plan;
      assert SecretRequest(user, UserSecretName, IstioNamespace) in plan;
    }
  }

  /** A successful `createSecrets` leaves the login secret, or the OAuth secret, in place. */
  lemma AuthSecretInPlace(c: SecretSettings, k: ClusterResponses)
    requires CreateSecrets(c, k).result.Pass?
    ensures var w := CreateSecrets(c, k).written;
            && (c.useBasicAuth ==> Available(c.namespace, BasicAuthSecretName, k.present, w))
            && (!c.useBasicAuth ==> Available(OauthNamespace(c.namespace, c.useIstio), OauthSecretName, k.present, w))
  {
    var sa, auth := CreateSecretsParts(c, k);
    assert sa.result.Pass? && auth.result.Pass?;
    if c.useBasicAuth {
      LoginSecretAvailable(c.namespace, c.username, c.passwordHash, k.basicUpdate, k.basicCreate, k.present);
      AvailableAppended(c.namespace, BasicAuthSecretName, k.present, sa.written, auth.written);
    } else {
      AvailableThrough(OauthNamespace(c.namespace, c.useIstio), OauthSecretName, k.present, sa.written, auth.written);
    }
  }

  /** A successful `createBasicAuthSecret` makes the login secret available. */
  lemma LoginSecretAvailable(namespace: string, username: string, passwordHash: string,
                             update: Outcome<string>, create: Outcome<string>, present: set<(string, string)>)
    requires EnsureBasicAuthSecret(namespace, username, passwordHash, update, create).result.Pass?
    ensures Available(namespace, BasicAuthSecretName, present,
                      EnsureBasicAuthSecret(namespace, username, passwordHash, update, create).written)
  {
    var w := EnsureBasicAuthSecret(namespace, username, passwordHash, update, create).written;
    assert w[0] in w;
  }

  /** Availability survives appending more written secrets, on either side. */
  lemma AvailableAppended(namespace: string, name: string, present: set<(string, string)>, a: seq<Secret>, b: seq<Secret>)
    ensures Available(namespace, name, present, a) ==> Available(namespace, name, present, a + b)
    ensures Available(namespace, name, present, b) ==> Available(namespace, name, present, a + b)
  {
  }
}
