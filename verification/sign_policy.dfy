/** The signing-policy evaluator `ConcreteSignPolicy.Eval`: a linear pipeline
    of early exits (schema checks of self-referential objects, signature
    lookup, verification), then the namespace rewrite for resource-signature
    requests, rule selection, ordered rule evaluation and decision assembly. */
module SignPolicy {
  import opened Wrappers
  import opened Common
  import opened PolicyPatterns
  import opened SignRules
  import opened SignRuleList

  /** One target descriptor of a resource signature; only its namespace is used. */
  datatype SignItem = SignItem(namespace: string)

  /** A resource signature: the verifier's type tag and the target descriptors. */
  datatype ResourceSignature = ResourceSignature(signType: string, data: seq<SignItem>)

  /** The `(ok, reasonFail)` pair of a schema validator. */
  datatype Validation = Validation(ok: bool, reason: string)

  /** What a verifier reports: the signer it resolved (if any) and its own error record. */
  datatype SigVerifyResult = SigVerifyResult(signer: Option<SignerInfo>, error: Option<CheckError>)

  /** A verifier's answer: a possibly-nil result and a Go error. */
  datatype VerifyOutcome = VerifyOutcome(result: Option<SigVerifyResult>, err: Option<string>)

  /** The collaborators the evaluator consults, none of whose code is part of
      this model.
      - `isPolicyRequest`, `isSignatureRequest`: `IsEnforcePolicyRequest` and
        `IsResourceSignatureRequest` of the request context;
      - `policyKind`, `signatureKind`: the kind names quoted in schema errors;
      - `validatePolicy(raw, reqc, enforcerNs, policyNs)`: decoding the policy
        object and running its `Validate`;
      - `decodeSignature(raw)`: JSON decoding of a resource signature;
      - `validateSignature(obj)`: `ResourceSignature.Validate` on the decoded,
        possibly nil, object;
      - `lookupSignature(reqc)`: the signature store's `GetResourceSignature`
        for the request's resource reference;
      - `verify(signType, enforcerNs, rsig, reqc)`: the verifier selected by the
        type tag, applied to the signature;
      - `findMatchedPolicy(reqc, pattern)`: the description of the policy that
        owns a signer pattern;
      - `matchPattern`: the glob matcher. */
  datatype Env = Env(
    isPolicyRequest: ReqContext -> bool,
    isSignatureRequest: ReqContext -> bool,
    policyKind: string,
    signatureKind: string,
    validatePolicy: (seq<byte>, ReqContext, string, string) -> Validation,
    decodeSignature: seq<byte> -> Option<ResourceSignature>,
    validateSignature: Option<ResourceSignature> -> Validation,
    lookupSignature: ReqContext -> Option<ResourceSignature>,
    verify: (string, string, ResourceSignature, ReqContext) -> VerifyOutcome,
    findMatchedPolicy: (ReqContext, SignerMatchPattern) -> Option<string>,
    matchPattern: Matcher)

  /** The evaluator's configuration; `signerPatterns` is the policy's `GetSigner()`. */
  datatype ConcreteSignPolicy = ConcreteSignPolicy(
    enforcerNamespace: string,
    policyNamespace: string,
    signerPatterns: seq<SignerMatchPattern>)

  /** The decision paired with the Go error returned beside it. */
  datatype EvalOutcome = EvalOutcome(result: SignPolicyEvalResult, err: Option<string>)

  const NoSignatureReason: string := "No signature found"
  const VerifyErrorReason: string := "Error during signature verification"
  const VerifyFailedPrefix: string := "Failed to verify signature; "
  const SchemaErrorPrefix: string := "Schema Error for "

  /** The rewrite reads the first target descriptor without a bounds check, so
      a resource-signature request whose payload decodes must name a target. */
  predicate FirstTargetPresent(env: Env, reqc: ReqContext, rawObj: seq<byte>) {
    env.isSignatureRequest(reqc) && env.decodeSignature(rawObj).Some? ==>
      |env.decodeSignature(rawObj).value.data| > 0
  }

  /** `makeReqcForEval`: a resource-signature request is evaluated in the
      namespace of its first target when the payload decodes and that
      namespace is non-empty; nothing else about the request changes. */
  function MakeReqcForEval(reqc: ReqContext, rawObj: seq<byte>, env: Env): (r: ReqContext)
    requires FirstTargetPresent(env, reqc, rawObj)
    ensures !env.isSignatureRequest(reqc) ==> r == reqc
    ensures r == reqc.(namespace := r.namespace)
    ensures r.namespace != reqc.namespace ==>
      env.isSignatureRequest(reqc) && env.decodeSignature(rawObj).Some?
      && r.namespace == env.decodeSignature(rawObj).value.data[0].namespace && r.namespace != ""
    ensures (env.isSignatureRequest(reqc) && env.decodeSignature(rawObj).Some?
             && env.decodeSignature(rawObj).value.data[0].namespace != "") ==>
      r.namespace == env.decodeSignature(rawObj).value.data[0].namespace
  {
    if !env.isSignatureRequest(reqc) then reqc
    else
      match env.decodeSignature(rawObj)
      case None => reqc
      case Some(rsigObj) =>
        if rsigObj.data[0].namespace != "" then reqc.(namespace := rsigObj.data[0].namespace)
        else reqc
  }

  /** Rewriting a request whose first target already lies in its own namespace
      changes nothing. */
  lemma RewriteIdempotent(reqc: ReqContext, env: Env)
    requires env.decodeSignature(reqc.rawObject).Some? ==>
      |env.decodeSignature(reqc.rawObject).value.data| > 0
      && env.decodeSignature(reqc.rawObject).value.data[0].namespace == reqc.namespace
    ensures MakeReqcForEval(reqc, reqc.rawObject, env) == reqc
  {
  }

  /** The schema-error reason of a self-referential policy or signature object
      that fails validation, if any. The policy check comes first. */
  function SchemaFailure(p: ConcreteSignPolicy, reqc: ReqContext, env: Env): Option<string> {
    var polCheck := env.validatePolicy(reqc.rawObject, reqc, p.enforcerNamespace, p.policyNamespace);
    var sigCheck := env.validateSignature(env.decodeSignature(reqc.rawObject));
    if env.isPolicyRequest(reqc) && !polCheck.ok then
      Some(SchemaErrorPrefix + env.policyKind + "; " + polCheck.reason)
    else if env.isSignatureRequest(reqc) && !sigCheck.ok then
      Some(SchemaErrorPrefix + env.signatureKind + "; " + sigCheck.reason)
    else None
  }

  /** The verifier's answer for the stored signature, when there is one. */
  function Verification(p: ConcreteSignPolicy, reqc: ReqContext, env: Env): Option<VerifyOutcome> {
    match env.lookupSignature(reqc)
    case None => None
    case Some(rsig) => Some(env.verify(rsig.signType, p.enforcerNamespace, rsig, reqc))
  }

  /** The signer resolved by an error-free verification, if any. */
  function VerifiedSigner(p: ConcreteSignPolicy, reqc: ReqContext, env: Env): Option<SignerInfo> {
    match Verification(p, reqc, env)
    case None => None
    case Some(v) => if v.err.None? && v.result.Some? then v.result.value.signer else None
  }

  /** Whether evaluation gets past every early exit to the rule stage. */
  predicate RuleStageReached(p: ConcreteSignPolicy, reqc: ReqContext, env: Env) {
    SchemaFailure(p, reqc, env).None? && VerifiedSigner(p, reqc, env).Some?
  }

  function Deny(reason: string): EvalOutcome {
    EvalOutcome(SignPolicyEvalResult(None, "", false, true, "", Some(CheckError(None, reason))), None)
  }

  /** Whether, in the rewritten context, no rule applies or some applicable
      rule admits the signer. */
  predicate RulesAdmit(p: ConcreteSignPolicy, reqc: ReqContext, env: Env, signer: SignerInfo)
    requires FirstTargetPresent(env, reqc, reqc.rawObject)
  {
    var ctx := MakeReqcForEval(reqc, reqc.rawObject, env);
    var rules := Find(p.signerPatterns, ctx, env.matchPattern);
    rules == [] || exists i :: 0 <= i < |rules| && Admits(rules[i], ctx, Some(signer), env.matchPattern)
  }

  /** The audit description reported for a matched rule: what the policy
      says about the rule's signer pattern, looked up with the original
      request, or empty when the policy has none. */
  function MatchedPolicyDescription(env: Env, reqc: ReqContext, rule: Rule): string {
    match env.findMatchedPolicy(reqc, ToSignerMatchPattern(rule))
    case None => ""
    case Some(desc) => desc
  }

  /** Which rule an allowed decision reports. With no applicable rule, neither
      a signer name nor a policy description; otherwise the first applicable
      rule that admits the signer, with its name and its policy's description. */
  predicate ReportsFirstMatch(p: ConcreteSignPolicy, reqc: ReqContext, env: Env, signer: SignerInfo,
                              res: SignPolicyEvalResult)
    requires FirstTargetPresent(env, reqc, reqc.rawObject)
  {
    var ctx := MakeReqcForEval(reqc, reqc.rawObject, env);
    var rules := Find(p.signerPatterns, ctx, env.matchPattern);
    if rules == [] then
      res.signerName == "" && res.matchedPolicy == ""
    else
      exists i :: 0 <= i < |rules| && Admits(rules[i], ctx, Some(signer), env.matchPattern)
        && (forall j :: 0 <= j < i ==> !Admits(rules[j], ctx, Some(signer), env.matchPattern))
        && res.signerName == rules[i].name
        && res.matchedPolicy == MatchedPolicyDescription(env, reqc, rules[i])
  }

  /** The rule stage of `ConcreteSignPolicy.Eval` (its lines after a signer has
      been resolved): rewrite the context, select the applicable rules,
      evaluate them in order and assemble the decision. */
  function RuleStage(p: ConcreteSignPolicy, reqc: ReqContext, env: Env, signer: SignerInfo): (o: EvalOutcome)
    requires FirstTargetPresent(env, reqc, reqc.rawObject)
    ensures o.err.None? && o.result.checked
    ensures o.result.allow <==> RulesAdmit(p, reqc, env, signer)
    ensures o.result.signer == Some(signer)
    ensures o.result.allow ==> ReportsFirstMatch(p, reqc, env, signer, o.result)
    ensures !o.result.allow ==>
      o.result.error.Some? && IsPrefix(NoMatchPrefix, o.result.error.value.reason)
      && IsSuffix(signer.email, o.result.error.value.reason)
    ensures o.result.matchedPolicy != "" ==> o.result.allow
  {
    var reqcForEval := MakeReqcForEval(reqc, reqc.rawObject, env);
    var ruleList := Find(p.signerPatterns, reqcForEval, env.matchPattern);
    var ruleEval := EvalRuleList(ruleList, reqcForEval, Some(signer), env.matchPattern);
    if ruleEval.err.Some? then
      EvalOutcome(SignPolicyEvalResult(Some(signer), "", false, true, "",
                                       Some(CheckError(ruleEval.err, ruleEval.err.value))), None)
    else
      var matchedPolicyStr :=
        match ruleEval.result.matchedRule
        case None => ""
        case Some(matchedRule) => MatchedPolicyDescription(env, reqc, matchedRule);
      EvalOutcome(SignPolicyEvalResult(ruleEval.result.signer, ruleEval.result.signerName,
                                       ruleEval.result.allow, ruleEval.result.checked,
                                       matchedPolicyStr, ruleEval.result.error), None)
  }

  /** `ConcreteSignPolicy.Eval`. Every outcome is a checked decision and no Go
      error escapes. A request is allowed exactly when it passes every early
      exit and, in the rewritten context, either no rule applies or some
      applicable rule admits the verified signer. Each early exit denies with
      its own reason; a denial at the rule stage names the signer's email. */
  function Eval(p: ConcreteSignPolicy, reqc: ReqContext, env: Env): (o: EvalOutcome)
    requires RuleStageReached(p, reqc, env) ==> FirstTargetPresent(env, reqc, reqc.rawObject)
    ensures o.err.None? && o.result.checked
    ensures SchemaFailure(p, reqc, env).Some? ==>
      !o.result.allow && o.result.error.Some? && IsPrefix(SchemaErrorPrefix, o.result.error.value.reason)
    ensures (SchemaFailure(p, reqc, env).None? && env.lookupSignature(reqc).None?) ==>
      !o.result.allow && o.result.error == Some(CheckError(None, NoSignatureReason))
    ensures (SchemaFailure(p, reqc, env).None? && Verification(p, reqc, env).Some?
             && Verification(p, reqc, env).value.err.Some?) ==>
      !o.result.allow && o.result.error == Some(CheckError(Verification(p, reqc, env).value.err, VerifyErrorReason))
    ensures (SchemaFailure(p, reqc, env).None? && Verification(p, reqc, env).Some?
             && Verification(p, reqc, env).value.err.None? && VerifiedSigner(p, reqc, env).None?) ==>
      !o.result.allow && o.result.error.Some? && IsPrefix(VerifyFailedPrefix, o.result.error.value.reason)
    ensures o.result.allow <==>
      (RuleStageReached(p, reqc, env) && RulesAdmit(p, reqc, env, VerifiedSigner(p, reqc, env).value))
    ensures o.result.allow ==> o.result.signer.Some? && o.result.signer == VerifiedSigner(p, reqc, env)
    ensures o.result.allow ==> ReportsFirstMatch(p, reqc, env, VerifiedSigner(p, reqc, env).value, o.result)
    ensures (RuleStageReached(p, reqc, env) && !o.result.allow) ==>
      o.result.signer == VerifiedSigner(p, reqc, env) && o.result.error.Some?
      && IsPrefix(NoMatchPrefix, o.result.error.value.reason)
      && IsSuffix(VerifiedSigner(p, reqc, env).value.email, o.result.error.value.reason)
    ensures o.result.matchedPolicy != "" ==> o.result.allow
  {
    var polCheck := env.validatePolicy(reqc.rawObject, reqc, p.enforcerNamespace, p.policyNamespace);
    if env.isPolicyRequest(reqc) && !polCheck.ok then
      Deny(SchemaErrorPrefix + env.policyKind + "; " + polCheck.reason)
    else
      var sigCheck := env.validateSignature(env.decodeSignature(reqc.rawObject));
      if env.isSignatureRequest(reqc) && !sigCheck.ok then
        Deny(SchemaErrorPrefix + env.signatureKind + "; " + sigCheck.reason)
      else
        match env.lookupSignature(reqc)
        case None => Deny(NoSignatureReason)
        case Some(rsig) =>
          var sigVerifyResult := env.verify(rsig.signType, p.enforcerNamespace, rsig, reqc);
          if sigVerifyResult.err.Some? then
            EvalOutcome(SignPolicyEvalResult(None, "", false, true, "",
                                             Some(CheckError(sigVerifyResult.err, VerifyErrorReason))), None)
          else if sigVerifyResult.result.None? || sigVerifyResult.result.value.signer.None? then
            var msg :=
              if sigVerifyResult.result.Some? && sigVerifyResult.result.value.error.Some?
              then sigVerifyResult.result.value.error.value.reason
              else "";
            Deny(VerifyFailedPrefix + msg)
          else
            RuleStage(p, reqc, env, sigVerifyResult.result.value.signer.value)
  }
}
