/**
 * The parameter-filling part of `Gcp.Generate`: the email check, the defaults
 * for the static IP name and the hostname, and the component parameters it
 * upserts with `setNameVal`.
 */
module Generate {
  import opened Util
  import opened NameValues

  /** `kftypes.ResourceEnum`. */
  datatype ResourceEnum = All | Platform | K8s

  datatype GenerateError =
    | EmailNotSpecified(isCLI: bool)      // the two messages differ by isCLI
    | DmConfigsFailed(reason: string)     // generateDMConfigs failed
    | WriteConfigFailed                   // writeConfigFile failed

  /** `ComponentParams[component]`: a missing component reads as the nil list. */
  function Params(m: map<string, seq<NameValue>>, component: string): seq<NameValue>
  {
    if component in m then m[component] else []
  }

  /** A parameter value, and the `InitRequired` flag it is set with. */
  datatype Setting = Setting(value: string, required: bool)

  /**
   * Pair (`c`, `p`) reads as assigned in `a`: with the assigned value, and the flag
   * it had in `before` or the assigned flag when it was new; as in `before` when
   * `a` does not assign it.
   */
  ghost predicate AssignedAt(after: map<string, seq<NameValue>>, before: map<string, seq<NameValue>>,
                             a: map<(string, string), Setting>, c: string, p: string)
  {
    Entry(Params(after, c), p) ==
      if (c, p) in a then Some(Upserted(Entry(Params(before, c), p), p, a[(c, p)].value, a[(c, p)].required))
      else Entry(Params(before, c), p)
  }

  /** Every (component, parameter) pair reads as assigned in `a`. */
  ghost predicate Assigned(after: map<string, seq<NameValue>>, before: map<string, seq<NameValue>>,
                           a: map<(string, string), Setting>)
  {
    forall c, p :: AssignedAt(after, before, a, c, p)
  }

  /** One more upsert extends the assignment by one pair (set again with the same setting, if at all). */
  lemma AssignStep(before: map<string, seq<NameValue>>, mid: map<string, seq<NameValue>>,
                   a: map<(string, string), Setting>, c: string, p: string, v: string, required: bool)
    requires Assigned(mid, before, a)
    requires (c, p) in a ==> a[(c, p)] == Setting(v, required)
    ensures Assigned(mid[c := Upsert(Params(mid, c), p, v, required)], before, a[(c, p) := Setting(v, required)])
  {
    var after, a' := mid[c := Upsert(Params(mid, c), p, v, required)], a[(c, p) := Setting(v, required)];
    forall c', p' ensures AssignedAt(after, before, a', c', p') {
      AssignStepAt(before, mid, a, c, p, v, required, c', p');
    }
  }

  /** `AssignStep` at one pair. */
  lemma AssignStepAt(before: map<string, seq<NameValue>>, mid: map<string, seq<NameValue>>,
                     a: map<(string, string), Setting>, c: string, p: string, v: string, required: bool,
                     c': string, p': string)
    requires AssignedAt(mid, before, a, c', p')
    requires (c, p) in a ==> a[(c, p)] == Setting(v, required)
    ensures AssignedAt(mid[c := Upsert(Params(mid, c), p, v, required)], before, a[(c, p) := Setting(v, required)], c', p')
  {
    var after := mid[c := Upsert(Params(mid, c), p, v, required)];
    if c' == c {
      assert Params(after, c) == Upsert(Params(mid, c), p, v, required);
      EntryUpsert(Params(mid, c), p, v, required, p');
    } else {
      assert Params(after, c') == Params(mid, c');
    }
  }

  /** A round of one upsert. */
  lemma AssignOne(m0: map<string, seq<NameValue>>, m1: map<string, seq<NameValue>>, a: map<(string, string), Setting>,
                  c: string, p: string, v: string, r: bool)
    requires m1 == m0[c := Upsert(Params(m0, c), p, v, r)]
    requires a == map[(c, p) := Setting(v, r)]
    ensures Assigned(m1, m0, a)
  {
    AssignStep(m0, m0, map[], c, p, v, r);
    assert map[][(c, p) := Setting(v, r)] == a;
  }

  /** A round of two upserts to different parameters of one component. */
  lemma AssignTwo(m0: map<string, seq<NameValue>>, m1: map<string, seq<NameValue>>, m2: map<string, seq<NameValue>>,
                  a: map<(string, string), Setting>, c: string, p1: string, v1: string, r1: bool,
                  p2: string, v2: string, r2: bool)
    requires p1 != p2
    requires m1 == m0[c := Upsert(Params(m0, c), p1, v1, r1)]
    requires m2 == m1[c := Upsert(Params(m1, c), p2, v2, r2)]
    requires a == map[(c, p1) := Setting(v1, r1)][(c, p2) := Setting(v2, r2)]
    ensures Assigned(m2, m0, a)
  {
    AssignOne(m0, m1, map[(c, p1) := Setting(v1, r1)], c, p1, v1, r1);
    AssignStep(m0, m1, map[(c, p1) := Setting(v1, r1)], c, p2, v2, r2);
  }

  /** Setting `spartakus.usageId` once more, whether or not it was set already. */
  lemma AssignUsageId(start: map<string, seq<NameValue>>, mid: map<string, seq<NameValue>>,
                      after: map<string, seq<NameValue>>, already: bool, usageId: string)
    requires Assigned(mid, start, SpartakusParams(already, usageId))
    requires after == mid["spartakus" := Upsert(Params(mid, "spartakus"), "usageId", usageId, true)]
    ensures Assigned(after, start, SpartakusParams(true, usageId))
  {
    AssignStep(start, mid, SpartakusParams(already, usageId), "spartakus", "usageId", usageId, true);
    assert SpartakusParams(already, usageId)[("spartakus", "usageId") := Setting(usageId, true)] ==
           SpartakusParams(true, usageId);
  }

  /** The ingress component that carries `ipName` and `hostname`. */
  function IngressComponent(useBasicAuth: bool): string
  {
    if useBasicAuth then "basic-auth-ingress" else "iap-ingress"
  }

  /** `Spec.IpName` after `Generate`: `{name}-ip` unless one was given. */
  function DefaultedIpName(ipName: string, name: string): string
  {
    if ipName == "" then name + "-ip" else ipName
  }

  /** `Spec.Hostname` after `Generate`: `{name}.endpoints.{project}.cloud.goog` unless one was given. */
  function DefaultedHostname(hostname: string, name: string, project: string): string
  {
    if hostname == "" then name + ".endpoints." + project + ".cloud.goog" else hostname
  }

  /** `cert-manager.acmeEmail`, required. */
  ghost function EmailParams(email: string): map<(string, string), Setting>
  {
    map[("cert-manager", "acmeEmail") := Setting(email, true)]
  }

  /** `ipName` and `hostname` on the ingress the auth mode selects, both required. */
  ghost function IngressParams(ipName: string, hostname: string, useBasicAuth: bool): map<(string, string), Setting>
  {
    var ingress := IngressComponent(useBasicAuth);
    map[(ingress, "ipName") := Setting(ipName, true)][(ingress, "hostname") := Setting(hostname, true)]
  }

  /** The two pipeline persistent disks, named after the application, not required. */
  ghost function PipelineParams(name: string): map<(string, string), Setting>
  {
    map[("pipeline", "mysqlPd") := Setting(name + "-storage-metadata-store", false)]
       [("pipeline", "minioPd") := Setting(name + "-storage-artifact-store", false)]
  }

  /** The parameters `Generate` always sets, with the values it sets them to. */
  ghost function FixedParams(name: string, email: string, ipName: string, hostname: string,
                             useBasicAuth: bool): map<(string, string), Setting>
  {
    EmailParams(email) + IngressParams(ipName, hostname, useBasicAuth) + PipelineParams(name)
  }

  /** `spartakus.usageId`, required, set when the component list names spartakus. */
  ghost function SpartakusParams(hasSpartakus: bool, usageId: string): map<(string, string), Setting>
  {
    if hasSpartakus then map[("spartakus", "usageId") := Setting(usageId, true)] else map[]
  }

  /** `iap-ingress.useIstio`, not required, set when Istio is used (whatever the auth mode). */
  ghost function IstioParams(useIstio: bool): map<(string, string), Setting>
  {
    if useIstio then map[("iap-ingress", "useIstio") := Setting("true", false)] else map[]
  }

  /** Everything `Generate` sets. */
  ghost function GeneratedParams(name: string, email: string, ipName: string, hostname: string,
                                 useBasicAuth: bool, useIstio: bool, hasSpartakus: bool,
                                 usageId: string): map<(string, string), Setting>
  {
    FixedParams(name, email, ipName, hostname, useBasicAuth) + SpartakusParams(hasSpartakus, usageId) +
    IstioParams(useIstio)
  }

  /** `Generate`'s three rounds of assignments set different pairs. */
  lemma GeneratedKeysDisjoint(name: string, email: string, ipName: string, hostname: string,
                              useBasicAuth: bool, useIstio: bool, hasSpartakus: bool, usageId: string)
    ensures FixedParams(name, email, ipName, hostname, useBasicAuth).Keys !! SpartakusParams(hasSpartakus, usageId).Keys
    ensures FixedParams(name, email, ipName, hostname, useBasicAuth).Keys !! IstioParams(useIstio).Keys
    ensures SpartakusParams(hasSpartakus, usageId).Keys !! IstioParams(useIstio).Keys
  {
    var fixed := FixedParams(name, email, ipName, hostname, useBasicAuth);
    assert ("spartakus", "usageId") !in fixed;
    assert ("iap-ingress", "useIstio") !in fixed;
  }

  /** Two rounds of assignments to different pairs compose. */
  lemma AssignCompose(m0: map<string, seq<NameValue>>, m1: map<string, seq<NameValue>>,
                      m2: map<string, seq<NameValue>>, a1: map<(string, string), Setting>,
                      a2: map<(string, string), Setting>)
    requires a1.Keys !! a2.Keys
    requires Assigned(m1, m0, a1) && Assigned(m2, m1, a2)
    ensures Assigned(m2, m0, a1 + a2)
  {
    forall c, p ensures AssignedAt(m2, m0, a1 + a2, c, p) {
      assert AssignedAt(m2, m1, a2, c, p) && AssignedAt(m1, m0, a1, c, p);
    }
  }

  /** Three rounds of assignments to different pairs compose. */
  lemma AssignCompose3(m0: map<string, seq<NameValue>>, m1: map<string, seq<NameValue>>,
                       m2: map<string, seq<NameValue>>, m3: map<string, seq<NameValue>>,
                       a1: map<(string, string), Setting>, a2: map<(string, string), Setting>,
                       a3: map<(string, string), Setting>)
    requires a1.Keys !! a2.Keys && a1.Keys !! a3.Keys && a2.Keys !! a3.Keys
    requires Assigned(m1, m0, a1) && Assigned(m2, m1, a2) && Assigned(m3, m2, a3)
    ensures Assigned(m3, m0, a1 + a2 + a3)
  {
    AssignCompose(m0, m1, m2, a1, a2);
    AssignCompose(m0, m2, m3, a1 + a2, a3);
  }

  /** The fields of the application definition that `Generate` reads or writes. */
  class GcpApp {
    var name: string
    var project: string
    var email: string
    var useBasicAuth: bool
    var useIstio: bool
    var components: seq<string>
    var ipName: string
    var hostname: string
    var componentParams: map<string, seq<NameValue>>

    constructor (name: string, project: string, email: string, useBasicAuth: bool, useIstio: bool,
                 components: seq<string>, ipName: string, hostname: string,
                 componentParams: map<string, seq<NameValue>>)
      ensures this.name == name && this.project == project && this.email == email
      ensures this.useBasicAuth == useBasicAuth && this.useIstio == useIstio
      ensures this.components == components && this.ipName == ipName && this.hostname == hostname
      ensures this.componentParams == componentParams
    {
      this.name, this.project, this.email := name, project, email;
      this.useBasicAuth, this.useIstio, this.components := useBasicAuth, useIstio, components;
      this.ipName, this.hostname, this.componentParams := ipName, hostname, componentParams;
    }

    /** `ComponentParams[component] = setNameVal(ComponentParams[component], p, val, required)`. */
    method SetParam(component: string, p: string, val: string, required: bool)
      modifies this`componentParams
      ensures componentParams ==
              old(componentParams)[component := Upsert(Params(old(componentParams), component), p, val, required)]
    {
      var updated := SetNameVal(Params(componentParams, component), p, val, required);
      componentParams := componentParams[component := updated];
    }

    /** The upserts of `Generate` that do not depend on a flag or the component list. */
    method SetFixedParams()
      modifies this`componentParams
      ensures Assigned(componentParams, old(componentParams),
                       FixedParams(name, email, ipName, hostname, useBasicAuth))
    {
      ghost var m0 := componentParams;
      SetParam("cert-manager", "acmeEmail", email, true);
      AssignOne(m0, componentParams, EmailParams(email), "cert-manager", "acmeEmail", email, true);
      ghost var m1 := componentParams;
      SetIngressParams();
      ghost var m2 := componentParams;
      SetPipelineParams();
      AssignCompose3(m0, m1, m2, componentParams, EmailParams(email), IngressParams(ipName, hostname, useBasicAuth),
                     PipelineParams(name));
    }

    /** `Spec.IpName` and `Spec.Hostname` into the selected ingress. */
    method SetIngressParams()
      modifies this`componentParams
      ensures Assigned(componentParams, old(componentParams), IngressParams(ipName, hostname, useBasicAuth))
    {
      var ingress := IngressComponent(useBasicAuth);
      SetParam(ingress, "ipName", ipName, true);
      ghost var m1 := componentParams;
      SetParam(ingress, "hostname", hostname, true);
      AssignTwo(old(componentParams), m1, componentParams, IngressParams(ipName, hostname, useBasicAuth),
                ingress, "ipName", ipName, true, "hostname", hostname, true);
    }

    /** `pipeline.mysqlPd` and `pipeline.minioPd`. */
    method SetPipelineParams()
      modifies this`componentParams
      ensures Assigned(componentParams, old(componentParams), PipelineParams(name))
    {
      SetParam("pipeline", "mysqlPd", name + "-storage-metadata-store", false);
      ghost var m1 := componentParams;
      SetParam("pipeline", "minioPd", name + "-storage-artifact-store", false);
      AssignTwo(old(componentParams), m1, componentParams, PipelineParams(name),
                "pipeline", "mysqlPd", name + "-storage-metadata-store", false,
                "minioPd", name + "-storage-artifact-store", false);
    }

    /** The loop over the component list that sets `spartakus.usageId`. */
    method SetUsageId(usageId: string)
      modifies this`componentParams
      ensures Assigned(componentParams, old(componentParams),
                       SpartakusParams("spartakus" in components, usageId))
    {
      ghost var start := componentParams;
      for i := 0 to |components|
        invariant Assigned(componentParams, start, SpartakusParams("spartakus" in components[..i], usageId))
      {
        assert components[..i + 1] == components[..i] + [components[i]];
        if components[i] == "spartakus" {
          ghost var mid := componentParams;
          SetParam("spartakus", "usageId", usageId, true);
          AssignUsageId(start, mid, componentParams, "spartakus" in components[..i], usageId);
        }
      }
      assert components[..|components|] == components;
    }

    /** `useIstio` is set on iap-ingress when Istio is used. */
    method SetIstioParam()
      modifies this`componentParams
      ensures Assigned(componentParams, old(componentParams), IstioParams(useIstio))
    {
      if useIstio {
        SetParam("iap-ingress", "useIstio", "true", false);
        AssignStep(old(componentParams), old(componentParams), map[], "iap-ingress", "useIstio", "true", false);
      }
    }

    /** Every upsert of `Generate`, in its order. */
    method FillParams(usageId: string)
      modifies this`componentParams
      ensures Assigned(componentParams, old(componentParams),
                       GeneratedParams(name, email, ipName, hostname, useBasicAuth, useIstio,
                                       "spartakus" in components, usageId))
    {
      ghost var m0 := componentParams;
      SetFixedParams();
      ghost var m1 := componentParams;
      SetUsageId(usageId);
      ghost var m2 := componentParams;
      SetIstioParam();
      GeneratedKeysDisjoint(name, email, ipName, hostname, useBasicAuth, useIstio, "spartakus" in components, usageId);
      AssignCompose3(m0, m1, m2, componentParams, FixedParams(name, email, ipName, hostname, useBasicAuth),
                     SpartakusParams("spartakus" in components, usageId), IstioParams(useIstio));
    }

    /**
     * `Generate`. The outcome of `generateDMConfigs` (`dmConfigs`, an error or None), the
     * random `usageId` and whether `writeConfigFile` succeeds are inputs.
     */
    method Generate(resources: ResourceEnum, isCLI: bool, dmConfigs: Option<string>,
                    usageId: string, writeOk: bool)
      returns (err: Option<GenerateError>)
      modifies this`ipName, this`hostname, this`componentParams
      ensures email == "" ==>
                err == Some(EmailNotSpecified(isCLI)) &&
                ipName == old(ipName) && hostname == old(hostname) && componentParams == old(componentParams)
      ensures email != "" && resources != K8s && dmConfigs.Some? ==>
                err == Some(DmConfigsFailed(dmConfigs.value)) &&
                ipName == old(ipName) && hostname == old(hostname) && componentParams == old(componentParams)
      ensures email != "" && (resources == K8s || dmConfigs.None?) ==>
                err == (if writeOk then None else Some(WriteConfigFailed)) &&
                ipName == DefaultedIpName(old(ipName), name) &&
                hostname == DefaultedHostname(old(hostname), name, project) &&
                Assigned(componentParams, old(componentParams),
                         GeneratedParams(name, email, ipName, hostname, useBasicAuth, useIstio,
                                         "spartakus" in components, usageId))
    {
      if email == "" {
        return Some(EmailNotSpecified(isCLI));
      }
      if resources != K8s && dmConfigs.Some? {
        return Some(DmConfigsFailed(dmConfigs.value));
      }
      // The acmeEmail upsert comes before the defaults in the source; it does not read them.
      if ipName == "" {
        ipName := name + "-ip";
      }
      if hostname == "" {
        hostname := name + ".endpoints." + project + ".cloud.goog";
      }
      FillParams(usageId);
      err := if writeOk then None else Some(WriteConfigFailed);
    }
  }
}
