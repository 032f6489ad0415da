/** Pre-filter predicates of the verifier's admission handler: break-glass
    evaluation over scoped conditions, request-namespace normalisation, the
    administrator-request check, and the dry-run and detect-only switches. */
module VerifierHandler {
  import opened Wrappers
  import opened Common

  /** `MatchPatternWithArray(pattern, values)`, whose code is not part of this model. */
  type ArrayMatcher = (string, seq<string>) -> bool

  /** The scope of a break-glass condition. The source keeps it as a string;
      the three named constants are the first three variants, and `ScopeOther`
      stands for any other string only, so a condition whose scope string is
      one of the named constants must use that constant's variant. */
  datatype Scope = ScopeUndefined | ScopeNamespaced | ScopeCluster | ScopeOther(name: string)

  datatype BreakGlassCondition = BreakGlassCondition(scope: Scope, namespaces: seq<string>)

  /** The verifier's sign policy; only its break-glass conditions are used here. */
  datatype SignPolicy = SignPolicy(breakGlass: seq<BreakGlassCondition>)

  /** The admission request, reduced to the kind and namespace read here. */
  datatype AdmissionRequest = AdmissionRequest(kind: string, namespace: string)

  /** The verifier's run mode. The source keeps it as a string; `OtherMode`
      stands only for a string other than the two named constants, which must
      be given as `EnforceMode` or `DetectMode`. */
  datatype Mode = EnforceMode | DetectMode | OtherMode(name: string)

  datatype VerifierConfig = VerifierConfig(
    ivAdminUserGroup: string,
    ivAdminUserName: string,
    mode: Mode)

  /** `getBreakGlassConditions`: a nil policy contributes no conditions. */
  function GetBreakGlassConditions(signPolicy: Option<SignPolicy>): (cs: seq<BreakGlassCondition>)
    ensures signPolicy.None? ==> cs == []
    ensures signPolicy.Some? ==> cs == signPolicy.value.breakGlass
  {
    if signPolicy.Some? then signPolicy.value.breakGlass else []
  }

  /** A condition whose scope covers namespaced resources. */
  predicate NamespaceScoped(d: BreakGlassCondition) {
    d.scope == ScopeUndefined || d.scope == ScopeNamespaced
  }

  /** When break-glass is on for a request: for a namespaced resource, some
      namespace-scoped condition lists the request's namespace verbatim; for
      any other resource scope, some condition is cluster-scoped. */
  predicate BreakGlassApplies(reqc: ReqContext, conditions: seq<BreakGlassCondition>) {
    if reqc.resourceScope == "Namespaced" then
      exists i :: 0 <= i < |conditions| && NamespaceScoped(conditions[i]) && reqc.namespace in conditions[i].namespaces
    else
      exists i :: 0 <= i < |conditions| && conditions[i].scope == ScopeCluster
  }

  /** `checkIfBreakGlassEnabled`, with the source's nested early-exit scans. */
  method CheckIfBreakGlassEnabled(reqc: ReqContext, signPolicy: Option<SignPolicy>) returns (enabled: bool)
    ensures enabled <==> BreakGlassApplies(reqc, GetBreakGlassConditions(signPolicy))
    ensures signPolicy.None? ==> !enabled
  {
    var conditions := GetBreakGlassConditions(signPolicy);
    enabled := false;
    if reqc.resourceScope == "Namespaced" {
      var reqNs := reqc.namespace;
      var i := 0;
      while i < |conditions|
        invariant 0 <= i <= |conditions|
        invariant !enabled
        invariant forall k :: 0 <= k < i ==> !(NamespaceScoped(conditions[k]) && reqNs in conditions[k].namespaces)
      {
        var d := conditions[i];
        if NamespaceScoped(d) {
          var j := 0;
          while j < |d.namespaces|
            invariant 0 <= j <= |d.namespaces|
            invariant !enabled
            invariant forall k :: 0 <= k < j ==> d.namespaces[k] != reqNs
          {
            if reqNs == d.namespaces[j] {
              enabled := true;
              break;
            }
            j := j + 1;
          }
        }
        if enabled {
          break;
        }
        i := i + 1;
      }
    } else {
      var i := 0;
      while i < |conditions|
        invariant 0 <= i <= |conditions|
        invariant !enabled
        invariant forall k :: 0 <= k < i ==> conditions[k].scope != ScopeCluster
      {
        if conditions[i].scope == ScopeCluster {
          enabled := true;
          break;
        }
        i := i + 1;
      }
    }
  }

  /** For a namespaced request, the namespace lists of cluster-scoped (or
      unrecognised) conditions never matter: dropping every condition that is
      not namespace-scoped leaves the answer unchanged. */
  lemma NamespacedIgnoresClusterConditions(reqc: ReqContext, conditions: seq<BreakGlassCondition>)
    requires reqc.resourceScope == "Namespaced"
    ensures BreakGlassApplies(reqc, conditions) <==>
      BreakGlassApplies(reqc, seq(|conditions|, k requires 0 <= k < |conditions| =>
        if NamespaceScoped(conditions[k]) then conditions[k] else BreakGlassCondition(ScopeCluster, [])))
  {
    var filtered := seq(|conditions|, k requires 0 <= k < |conditions| =>
      if NamespaceScoped(conditions[k]) then conditions[k] else BreakGlassCondition(ScopeCluster, []));
    if BreakGlassApplies(reqc, conditions) {
      var i :| 0 <= i < |conditions| && NamespaceScoped(conditions[i]) && reqc.namespace in conditions[i].namespaces;
      assert filtered[i] == conditions[i];
    }
    if BreakGlassApplies(reqc, filtered) {
      var i :| 0 <= i < |filtered| && NamespaceScoped(filtered[i]) && reqc.namespace in filtered[i].namespaces;
      assert filtered[i] == conditions[i];
    }
  }

  /** For a request of any other scope, namespace lists are ignored: the answer
      depends only on the conditions' scopes. */
  lemma ClusterIgnoresNamespaces(reqc: ReqContext, c1: seq<BreakGlassCondition>, c2: seq<BreakGlassCondition>)
    requires reqc.resourceScope != "Namespaced"
    requires |c1| == |c2| && forall k :: 0 <= k < |c1| ==> c1[k].scope == c2[k].scope
    ensures BreakGlassApplies(reqc, c1) <==> BreakGlassApplies(reqc, c2)
  {
    if BreakGlassApplies(reqc, c1) {
      var i :| 0 <= i < |c1| && c1[i].scope == ScopeCluster;
      assert c2[i].scope == ScopeCluster;
    }
    if BreakGlassApplies(reqc, c2) {
      var i :| 0 <= i < |c2| && c2[i].scope == ScopeCluster;
      assert c1[i].scope == ScopeCluster;
    }
  }

  /** `getRequestNamespace`: a `Namespace` object has no request namespace;
      every other kind keeps the request's namespace (the source's extra
      non-empty guard never changes the answer). */
  function GetRequestNamespace(req: AdmissionRequest): (ns: string)
    ensures ns == if req.kind == "Namespace" then "" else req.namespace
  {
    if req.kind != "Namespace" && req.namespace != "" then req.namespace else ""
  }

  /** `getRequestNamespaceFromReqContext`: the same rule on the request context. */
  function GetRequestNamespaceFromReqContext(reqc: ReqContext): (ns: string)
    ensures ns == if reqc.kind == "Namespace" then "" else reqc.namespace
    ensures ns == GetRequestNamespace(AdmissionRequest(reqc.kind, reqc.namespace))
  {
    if reqc.kind != "Namespace" && reqc.namespace != "" then reqc.namespace else ""
  }

  /** `checkIfIVAdminRequest`: a request is an administrator's when a configured
      (non-empty) admin group matches one of the user's groups or a configured
      admin user name matches the user's name. With neither configured, no
      request is. */
  function CheckIfIVAdminRequest(reqc: ReqContext, config: VerifierConfig,
                                 matchPattern: Matcher, matchPatternWithArray: ArrayMatcher): (isAdmin: bool)
    ensures config.ivAdminUserGroup == "" && config.ivAdminUserName == "" ==> !isAdmin
    ensures isAdmin <==>
      (config.ivAdminUserGroup != "" && matchPatternWithArray(config.ivAdminUserGroup, reqc.userGroups))
      || (config.ivAdminUserName != "" && matchPattern(config.ivAdminUserName, reqc.userName))
  {
    var groupMatched :=
      if config.ivAdminUserGroup != "" then matchPatternWithArray(config.ivAdminUserGroup, reqc.userGroups) else false;
    var userMatched :=
      if config.ivAdminUserName != "" then matchPattern(config.ivAdminUserName, reqc.userName) else false;
    groupMatched || userMatched
  }

  /** An unconfigured admin field never contributes: with no admin group the
      user's groups are irrelevant, and with no admin user name the user's
      name is. */
  lemma AdminEmptyFieldIgnored(reqc: ReqContext, config: VerifierConfig, m: Matcher, ma: ArrayMatcher,
                               groups: seq<string>, user: string)
    ensures config.ivAdminUserGroup == "" ==>
      CheckIfIVAdminRequest(reqc.(userGroups := groups), config, m, ma) == CheckIfIVAdminRequest(reqc, config, m, ma)
    ensures config.ivAdminUserName == "" ==>
      CheckIfIVAdminRequest(reqc.(userName := user), config, m, ma) == CheckIfIVAdminRequest(reqc, config, m, ma)
  {
  }

  /** `checkIfDryRunAdmission`: exactly the request's dry-run flag. */
  function CheckIfDryRunAdmission(reqc: ReqContext): (dryRun: bool)
    ensures dryRun <==> reqc.dryRun
  {
    reqc.dryRun
  }

  /** `checkIfDetectOnly`: true exactly in detect mode. */
  function CheckIfDetectOnly(config: VerifierConfig): (detectOnly: bool)
    ensures detectOnly <==> config.mode == DetectMode
  {
    config.mode == DetectMode
  }
}
