# Signing-policy decision engine: a Dafny model

This project models the admission-time signing-policy engine of the integrity
enforcer, together with the verifier's admission pre-filter predicates.

A request to create or update a cluster resource is admitted only if a
signature is found for it, the signature verifies to a signer identity, and
that identity and the resource's coordinates satisfy the policy's ordered
signer-match rules. The model covers:

- `SignRules` covers subject and resource matching, and the converters between
  policy signer-match patterns and enforcement rules.
- `SignRuleList` covers rule-list construction (`Find`) and evaluation.
  Evaluating one rule is `EvalRule`. Evaluating the list is `EvalRuleList`:
  an empty list allows by default, otherwise the first allowing rule wins,
  and if no rule allows, the result is a deny whose error names the signer's
  email.
- `SignPolicy` covers `ConcreteSignPolicy.Eval`. It runs schema checks of
  self-referential policy and signature objects, then signature lookup, then
  verification. For resource-signature requests it rewrites the evaluation
  namespace (`makeReqcForEval`). Then it selects and evaluates rules and
  assembles the decision.
- `VerifierHandler` covers break-glass evaluation, request-namespace
  normalisation, the administrator-request check, and the dry-run and
  detect-only switches.
- `Scenarios` gives end-to-end consequences of the evaluator: an admitted
  request, a missing signature, a signer with the wrong organization, and a
  resource signature evaluated in its target's namespace.

The glob matcher `MatchPattern` is a function-valued parameter (`Matcher`),
and every property is stated relative to it. The same holds for the
verifier's `MatchPattern`/`MatchPatternWithArray`. The evaluator's other
collaborators are fields of the `Env` record, each a total function:

- the signature store;
- verifier selection and verification;
- the policy and signature schema validators;
- JSON decoding of a resource signature;
- `FindMatchedSignerPolicy`;
- `IsEnforcePolicyRequest`/`IsResourceSignatureRequest`;
- the custom-resource kind names.

A nil Go pointer is an `Option`. A Go `(value, error)` return is a record
with an `err: Option<string>` field.

Two source hazards are handled as preconditions:

- `EvalRuleList` requires a present signer when the list is non-empty,
  because the no-match error formats `signer.Email`. Its one caller always
  passes a present signer.
- `MakeReqcForEval` requires a decoded resource-signature payload to name at
  least one target, because the rewrite reads `Data[0]` without a bounds
  check. `Eval` requires this only when evaluation actually reaches the
  rewrite.

## Model

| member | source | states |
|---|---|---|
| SignRules.SubjectMatch | enforcer/pkg/control/sign/signpolicy.go:317-333 | An absent signer never matches. A present signer matches iff the matcher accepts all eleven (pattern, attribute) pairs. |
| SignRules.AnySubjectMatchesEverySigner | enforcer/pkg/control/sign/signpolicy.go:317-333 | If the empty pattern matches anything, the all-empty subject pattern matches exactly the present signers, so an absent signer is still rejected. |
| SignRules.MatchSigner | enforcer/pkg/control/sign/signpolicy.go:410-427 | `resourceMatched` holds iff all four coordinate patterns match. `ruleOk` holds iff the resource matched and the subject matched, so `ruleOk` implies `resourceMatched`. An absent signer never gives `ruleOk`. |
| SignRules.ResourceMatchIgnoresSigner | enforcer/pkg/control/sign/signpolicy.go:410-427 | `resourceMatched` depends only on the rule's resource pattern and the coordinates. The signer, subject pattern, name and rule type cannot change it. |
| SignRules.ToPolicyRule | enforcer/pkg/control/sign/signpolicy.go:357-381 | Every converted rule has type `Allow`. Converting it back to a signer-match pattern gives the original pattern. |
| SignRules.ToSignerMatchPattern | enforcer/pkg/control/sign/signpolicy.go:383-408 | The request, subject and name fields carry over field for field. |
| SignRules.RuleRoundTrip | enforcer/pkg/control/sign/signpolicy.go:357-408 | Rule to pattern to rule gives back the rule iff the rule's type is `Allow`. |
| SignRules.ToPolicyRuleInjective | enforcer/pkg/control/sign/signpolicy.go:357-381 | Distinct patterns convert to distinct rules. |
| SignRuleList.Find | enforcer/pkg/control/sign/signpolicy.go:62-74 | The result is no longer than the pattern list. Every kept rule is an `Allow` rule whose resource part applies and whose pattern is listed. Every listed pattern whose rule applies is kept. |
| SignRuleList.FindAppend | enforcer/pkg/control/sign/signpolicy.go:62-74 | `Find` distributes over concatenation, so it is an order-preserving filter. |
| SignRuleList.FindSingle | enforcer/pkg/control/sign/signpolicy.go:62-74 | A single pattern yields its rule iff the rule's resource part applies, and yields nothing otherwise. |
| SignRuleList.EvalRule | enforcer/pkg/control/sign/signpolicy.go:90-111 | The result is always checked and carries no error. It allows iff the rule admits the request and signer. The matched rule is set iff it allows. The signer name is the rule's name when it allows and empty otherwise. |
| SignRuleList.FirstAllowing | enforcer/pkg/control/sign/signpolicy.go:135-141 | Returns the lowest index at or after the start whose rule allows, with no allowing rule before it. Returns none iff no rule from the start allows. |
| SignRuleList.EvalRuleList | enforcer/pkg/control/sign/signpolicy.go:126-146 | An empty list allows, is checked, and has an empty signer name and no error. On a non-empty list the result is that of the first allowing rule, and it allows iff some rule admits. If no rule admits, the result is checked, has no matched rule, and its error starts with the no-match text and ends with the signer's email. |
| SignRuleList.FirstMatchWins | enforcer/pkg/control/sign/signpolicy.go:135-141 | When two rules both admit, the list allows and reports the first rule and its name. |
| SignRuleList.EvalRuleListCons | enforcer/pkg/control/sign/signpolicy.go:135-141 | A leading rule that admits decides the outcome. A leading rule that does not admit leaves the outcome of a non-empty rest unchanged. |
| SignPolicy.MakeReqcForEval | enforcer/pkg/control/sign/signpolicy.go:270-293 | A request that is not a resource signature comes back unchanged. Otherwise only the namespace may differ. It changes only to the first target's namespace, only when the payload decodes and that namespace is non-empty, and in that case it always changes. |
| SignPolicy.RewriteIdempotent | enforcer/pkg/control/sign/signpolicy.go:270-293 | If the first target's namespace equals the request's own namespace, the rewrite returns the original request. |
| SignPolicy.RuleStage | enforcer/pkg/control/sign/signpolicy.go:224-266 | Takes a resolved signer. The decision is checked and carries the signer. It allows iff, in the rewritten context, no rule applies or some applicable rule admits the signer. An allow with no applicable rule reports no signer name and no policy description. Any other allow reports the first applicable rule that admits the signer, its name, and the description `FindMatchedSignerPolicy` gives for its pattern, looked up with the original request. A deny gives the no-match reason naming the signer's email. A matched-policy description appears only on an allow. |
| SignPolicy.Eval | enforcer/pkg/control/sign/signpolicy.go:148-268 | No Go error is returned, and every decision is checked. A schema failure denies with a schema-error reason. A missing signature denies with exactly "No signature found". A verifier error denies and keeps that error as the cause. No resolved signer denies with a verification-failure reason. Allow holds iff every early exit is passed and the rules admit the verified signer. An allowed decision carries that signer. It reports the first admitting rule's name and that rule's policy description, or neither when no rule applies. |
| Scenarios.AdmittedConfigMap | enforcer/pkg/control/sign/signpolicy.go:148-268 | A `ConfigMap` in `prod`, verified as `bob@co.com`, is admitted under the single matching rule. The decision reports that rule's name and its policy's description. |
| Scenarios.MissingSignatureDenied | enforcer/pkg/control/sign/signpolicy.go:179-192 | Under any policy, a missing signature denies with exactly "No signature found". |
| Scenarios.WrongOrganizationDenied | enforcer/pkg/control/sign/signpolicy.go:224-246 | A signer from the wrong organization, under a single applicable rule, is denied with the no-match reason naming the signer's email. |
| Scenarios.SignatureEvaluatedInTargetNamespace | enforcer/pkg/control/sign/signpolicy.go:270-293 | A resource-signature object filed in `sig-ns` whose first target is in `prod` gets its rules selected and evaluated in `prod`. |
| VerifierHandler.GetBreakGlassConditions | verifier/pkg/verifier/handler/utilFunctions.go:217-223 | A nil sign policy gives no conditions. Otherwise the policy's break-glass conditions are returned unchanged. |
| VerifierHandler.CheckIfBreakGlassEnabled | verifier/pkg/verifier/handler/utilFunctions.go:225-253 | For a `Namespaced` request, true iff some condition scoped Undefined or Namespaced lists the request namespace verbatim. For any other scope, true iff some condition is cluster-scoped. Never true for a nil policy. |
| VerifierHandler.NamespacedIgnoresClusterConditions | verifier/pkg/verifier/handler/utilFunctions.go:229-243 | For a namespaced request, conditions that are not namespace-scoped never matter. |
| VerifierHandler.ClusterIgnoresNamespaces | verifier/pkg/verifier/handler/utilFunctions.go:244-251 | For a request that is not namespaced, the answer depends only on the conditions' scopes, not on their namespace lists. |
| VerifierHandler.GetRequestNamespace | verifier/pkg/verifier/handler/utilFunctions.go:180-186 | Empty for kind `Namespace`, and the request's namespace otherwise. The source's non-empty guard never changes the answer. |
| VerifierHandler.GetRequestNamespaceFromReqContext | verifier/pkg/verifier/handler/utilFunctions.go:188-194 | Same rule on the request context, and it agrees with `GetRequestNamespace`. |
| VerifierHandler.CheckIfIVAdminRequest | verifier/pkg/verifier/handler/utilFunctions.go:196-207 | False when both admin fields are empty. Otherwise it is the OR of a configured group matching the user's groups and a configured user name matching the user's name. |
| VerifierHandler.AdminEmptyFieldIgnored | verifier/pkg/verifier/handler/utilFunctions.go:196-207 | With no admin group configured, the user's groups are irrelevant. With no admin user name configured, the user's name is irrelevant. |
| VerifierHandler.CheckIfDryRunAdmission | verifier/pkg/verifier/handler/utilFunctions.go:167-169 | Exactly the request's dry-run flag. |
| VerifierHandler.CheckIfDetectOnly | verifier/pkg/verifier/handler/utilFunctions.go:255-257 | True exactly in detect mode. |

## Left out

- The glob syntax of `MatchPattern` and `MatchPatternWithArray`: their code is not part of this model, so they are parameters.
- The signature store, `NewVerifier`/`Verify`, `Policy.Validate`, `ResourceSignature.Validate`, JSON decoding, `FindMatchedSignerPolicy`, `GetSigner`, `IsEnforcePolicyRequest`, `IsResourceSignatureRequest`, `GroupVersion` and `ResourceRef`: their code is not part of this model. They are `Env` fields or record fields.
- SignPolicy.Eval: at signpolicy.go:150-161 the policy object is decoded, its decode error ignored, and then validated. The model treats decode-then-validate as one collaborator on the raw bytes, so the nil dereference after a failed policy decode is not modelled.
- SignPolicy.Eval: `matchedPolicy.String()` is folded into the `findMatchedPolicy` collaborator, which returns the description.
- SignRuleList.EvalRuleList: the `err != nil` return inside the scan (signpolicy.go:136-137) is not modelled. The only rule implementation, `EnforceRuleFromCR.Eval`, never returns an error.
- Logging (`logger.Debug`, `logger.Error`) has no effect on the decision. The reflective `copier.Copy` is modelled as a record update.
- The enforcer's and the verifier's request-context types are modelled as one `ReqContext` record. Each reads only fields both have.
- Only the fields the engine reads or converts are modelled for the policy package's signer-match pattern, the resource signature and the verifier configuration.
- `NewSignPolicy`: a plain constructor.
- `createOrUpdateEvent` and `updateRSPStatus`: these use the cluster client and the wall clock.
- `createAdmissionResponse`: this only builds the response envelope.
- `checkIfProfileTargetNamespace`, `checkIfInScopeNamespace`, `checkIfUnprocessedInIV`, `checkIfIVServerRequest` and `checkIfIVOperatorRequest`: each is a one-line delegation to rule-table, selector or matcher code that is not part of this model.
- `helmreleasemetadata_client.go` (generated REST client) and `types.go` (CRD declarations without behaviour) are not modelled.
