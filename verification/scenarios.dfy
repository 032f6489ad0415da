/** End-to-end consequences of the evaluator in four situations: an admitted
    request, a missing signature, a signer whose organization the only rule
    rejects, and a resource signature evaluated in its target's namespace.
    Each is stated relative to the glob matcher's answers on the strings
    involved. */
module Scenarios {
  import opened Wrappers
  import opened Common
  import opened PolicyPatterns
  import opened SignRules
  import opened SignRuleList
  import opened SignPolicy

  /** A pattern that constrains only the resource kind, name, namespace and
      the signer's email and organization; every other field is left empty. */
  function SignerPattern(kind: string, name: string, namespace: string, email: string, organization: string): SignerMatchPattern {
    SignerMatchPattern(
      RequestMatchPattern("", kind, name, namespace),
      SubjectCondition("rule", SubjectMatchPattern(email, "", "", organization, "", "", "", "", "", "", "")))
  }

  /** The evaluator reaches its rule stage for an ordinary request (neither a
      policy nor a signature object) whose signature is found and verifies. */
  predicate VerifiesAs(p: ConcreteSignPolicy, reqc: ReqContext, env: Env, signer: SignerInfo) {
    && !env.isPolicyRequest(reqc)
    && !env.isSignatureRequest(reqc)
    && env.lookupSignature(reqc).Some?
    && env.verify(env.lookupSignature(reqc).value.signType, p.enforcerNamespace,
                  env.lookupSignature(reqc).value, reqc)
       == VerifyOutcome(Some(SigVerifyResult(Some(signer), None)), None)
  }

  /** A `ConfigMap` named `app-config` in `prod`, signed by `bob@co.com`, is
      admitted under the single rule for config maps in `prod` signed by that
      email, when the empty pattern matches anything, `*` matches the name and
      a literal matches itself. The decision reports that rule's name and its
      policy's description. */
  lemma AdmittedConfigMap(p: ConcreteSignPolicy, reqc: ReqContext, env: Env, signer: SignerInfo)
    requires reqc.kind == "ConfigMap" && reqc.namespace == "prod" && reqc.name == "app-config"
    requires signer.email == "bob@co.com"
    requires p.signerPatterns == [SignerPattern("ConfigMap", "*", "prod", "bob@co.com", "")]
    requires VerifiesAs(p, reqc, env, signer)
    requires forall v: string :: env.matchPattern("", v)
    requires env.matchPattern("*", "app-config")
    requires env.matchPattern("ConfigMap", "ConfigMap") && env.matchPattern("prod", "prod")
    requires env.matchPattern("bob@co.com", "bob@co.com")
    ensures Eval(p, reqc, env).result.allow
    ensures Eval(p, reqc, env).result.signer == Some(signer)
    ensures Eval(p, reqc, env).result.signerName == "rule"
    ensures Eval(p, reqc, env).result.matchedPolicy
         == MatchedPolicyDescription(env, reqc, ToPolicyRule(p.signerPatterns[0]))
  {
    var rule := ToPolicyRule(p.signerPatterns[0]);
    assert MakeReqcForEval(reqc, reqc.rawObject, env) == reqc;
    assert Find(p.signerPatterns, reqc, env.matchPattern) == [rule] by {
      FindSingle(p.signerPatterns[0], reqc, env.matchPattern);
    }
  }

  /** Whatever the policy, a request for which no signature is found is denied
      with exactly the reason "No signature found". */
  lemma MissingSignatureDenied(p: ConcreteSignPolicy, reqc: ReqContext, env: Env)
    requires !env.isPolicyRequest(reqc) && !env.isSignatureRequest(reqc)
    requires env.lookupSignature(reqc).None?
    ensures !Eval(p, reqc, env).result.allow
    ensures Eval(p, reqc, env).result.error.Some?
    ensures Eval(p, reqc, env).result.error.value.reason == "No signature found"
  {
  }

  /** A verified signer from `OtherCorp` under a single applicable rule that
      requires `ACME` is denied, and the reason is the no-match message naming
      the signer's email. */
  lemma WrongOrganizationDenied(p: ConcreteSignPolicy, reqc: ReqContext, env: Env, signer: SignerInfo)
    requires reqc.kind == "ConfigMap" && reqc.namespace == "prod"
    requires signer.organization == "OtherCorp"
    requires p.signerPatterns == [SignerPattern("ConfigMap", "", "prod", "", "ACME")]
    requires VerifiesAs(p, reqc, env, signer)
    requires forall v: string :: env.matchPattern("", v)
    requires env.matchPattern("ConfigMap", "ConfigMap") && env.matchPattern("prod", "prod")
    requires !env.matchPattern("ACME", "OtherCorp")
    ensures !Eval(p, reqc, env).result.allow
    ensures Eval(p, reqc, env).result.error.Some?
    ensures IsPrefix(NoMatchPrefix, Eval(p, reqc, env).result.error.value.reason)
    ensures IsSuffix(signer.email, Eval(p, reqc, env).result.error.value.reason)
  {
  }

  /** A resource-signature object filed in `sig-ns` whose first target lies in
      `prod` has its rules selected and evaluated in `prod`: the decision is
      the one for the same request moved to `prod`. */
  lemma SignatureEvaluatedInTargetNamespace(p: ConcreteSignPolicy, reqc: ReqContext, env: Env, signer: SignerInfo)
    requires reqc.namespace == "sig-ns"
    requires env.isSignatureRequest(reqc)
    requires env.decodeSignature(reqc.rawObject).Some?
    requires |env.decodeSignature(reqc.rawObject).value.data| > 0
    requires env.decodeSignature(reqc.rawObject).value.data[0].namespace == "prod"
    ensures RuleStage(p, reqc, env, signer).result.allow <==>
      (var ctx := reqc.(namespace := "prod");
       var rules := Find(p.signerPatterns, ctx, env.matchPattern);
       rules == [] || exists i :: 0 <= i < |rules| && Admits(rules[i], ctx, Some(signer), env.matchPattern))
  {
  }
}
