/** Rule-list construction and ordered evaluation: `Find` keeps, in order, the
    rules whose resource part applies to the request; `EvalRuleList` lets the
    first allowing rule decide, allows by default on an empty list, and denies
    with an error naming the signer otherwise. */
module SignRuleList {
  import opened Wrappers
  import opened Common
  import opened PolicyPatterns
  import opened SignRules

  /** `EnforceRuleEvalResult`. */
  datatype RuleEvalResult = RuleEvalResult(
    signer: Option<SignerInfo>,
    signerName: string,
    checked: bool,
    allow: bool,
    matchedRule: Option<Rule>,
    error: Option<CheckError>)

  /** A result paired with the Go error returned beside it. */
  datatype RuleEvalOutcome = RuleEvalOutcome(result: RuleEvalResult, err: Option<string>)

  /** Whether the rule's resource part matches the request coordinates. */
  predicate Applies(r: Rule, reqc: ReqContext, m: Matcher) {
    AllMatch(m, ResourceFields(r.resource), [reqc.groupVersion, reqc.kind, reqc.name, reqc.namespace])
  }

  /** Whether the whole rule (resource and subject) matches the request and signer. */
  predicate Admits(r: Rule, reqc: ReqContext, signer: Option<SignerInfo>, m: Matcher) {
    Applies(r, reqc, m) && SubjectMatch(r.subject, signer, m)
  }

  /** `EnforceRuleStoreFromPolicy.Find`: convert each pattern to a rule and
      keep those whose resource part applies. Every kept rule is an `Allow`
      rule that applies and comes from a listed pattern, and every applicable
      pattern's rule is kept. */
  function Find(patterns: seq<SignerMatchPattern>, reqc: ReqContext, m: Matcher): (rules: seq<Rule>)
    ensures |rules| <= |patterns|
    ensures forall r :: r in rules ==>
      r.ruleType == Allow && Applies(r, reqc, m) && ToSignerMatchPattern(r) in patterns
    ensures forall p :: p in patterns && Applies(ToPolicyRule(p), reqc, m) ==> ToPolicyRule(p) in rules
  {
    if |patterns| == 0 then []
    else
      var r := ToPolicyRule(patterns[0]);
      var rest := Find(patterns[1..], reqc, m);
      if MatchSigner(r, reqc.groupVersion, reqc.kind, reqc.name, reqc.namespace, None, m).resourceMatched
      then [r] + rest
      else rest
  }

  /** `Find` is a filter that preserves order: the rules of a concatenation are
      the rules of its parts, concatenated. */
  lemma {:induction false} FindAppend(a: seq<SignerMatchPattern>, b: seq<SignerMatchPattern>, reqc: ReqContext, m: Matcher)
    ensures Find(a + b, reqc, m) == Find(a, reqc, m) + Find(b, reqc, m)
  {
    if |a| == 0 {
      assert a + b == b;
    } else {
      assert (a + b)[1..] == a[1..] + b;
      FindAppend(a[1..], b, reqc, m);
    }
  }

  /** A single pattern yields its rule exactly when that rule applies. */
  lemma FindSingle(p: SignerMatchPattern, reqc: ReqContext, m: Matcher)
    ensures Find([p], reqc, m) == if Applies(ToPolicyRule(p), reqc, m) then [ToPolicyRule(p)] else []
  {
    assert [p][1..] == [];
  }

  /** `EnforceRuleFromCR.Eval`: always checked and error-free; allows exactly
      when the rule admits the request and signer, and then records the rule
      and its name. */
  function EvalRule(rule: Rule, reqc: ReqContext, signer: Option<SignerInfo>, m: Matcher): (o: RuleEvalOutcome)
    ensures o.err.None? && o.result.error.None? && o.result.checked
    ensures o.result.allow <==> Admits(rule, reqc, signer, m)
    ensures o.result.matchedRule.Some? <==> o.result.allow
    ensures o.result.allow ==> o.result.matchedRule == Some(rule) && o.result.signerName == rule.name
    ensures !o.result.allow ==> o.result.signerName == ""
    ensures o.result.signer == signer
  {
    var ruleOk := MatchSigner(rule, reqc.groupVersion, reqc.kind, reqc.name, reqc.namespace, signer, m).ruleOk;
    var matchedRule := if ruleOk then Some(rule) else None;
    var signerName := if ruleOk then rule.name else "";
    RuleEvalOutcome(RuleEvalResult(signer, signerName, true, ruleOk, matchedRule, None), None)
  }

  /** The index of the first rule at or after `from` whose evaluation allows. */
  function FirstAllowing(rules: seq<Rule>, from: nat, reqc: ReqContext, signer: Option<SignerInfo>, m: Matcher): (i: Option<nat>)
    requires from <= |rules|
    ensures i.Some? ==> from <= i.value < |rules| && EvalRule(rules[i.value], reqc, signer, m).result.allow
    ensures i.Some? ==> forall j :: from <= j < i.value ==> !EvalRule(rules[j], reqc, signer, m).result.allow
    ensures i.None? ==> forall j :: from <= j < |rules| ==> !EvalRule(rules[j], reqc, signer, m).result.allow
    decreases |rules| - from
  {
    if from == |rules| then None
    else if EvalRule(rules[from], reqc, signer, m).result.allow then Some(from)
    else FirstAllowing(rules, from + 1, reqc, signer, m)
  }

  /** The fixed prefix of the error when no rule matches. */
  const NoMatchPrefix: string := "No signer policies met this resource. this resource is signed by "

  /** `EnforceRuleList.Eval`. The source formats `signer.Email` when no rule
      allows, so a non-empty list needs a present signer. */
  function EvalRuleList(rules: seq<Rule>, reqc: ReqContext, signer: Option<SignerInfo>, m: Matcher): (o: RuleEvalOutcome)
    requires |rules| == 0 || signer.Some?
    ensures |rules| == 0 ==>
      o.result.allow && o.result.checked && o.result.signerName == "" && o.result.signer == signer
      && o.result.matchedRule.None? && o.result.error.None? && o.err.None?
    ensures |rules| > 0 && o.result.allow ==>
      exists i :: (0 <= i < |rules| && o == EvalRule(rules[i], reqc, signer, m)
                   && forall j :: 0 <= j < i ==> !EvalRule(rules[j], reqc, signer, m).result.allow)
    ensures |rules| > 0 ==> (o.result.allow <==> exists i :: 0 <= i < |rules| && Admits(rules[i], reqc, signer, m))
    ensures |rules| > 0 && !o.result.allow ==>
      o.result.checked && o.result.matchedRule.None? && o.result.signerName == ""
      && o.err.Some? && IsPrefix(NoMatchPrefix, o.err.value) && IsSuffix(signer.value.email, o.err.value)
  {
    if |rules| == 0 then
      RuleEvalOutcome(RuleEvalResult(signer, "", true, true, None, None), None)
    else
      match FirstAllowing(rules, 0, reqc, signer, m)
      case Some(i) => EvalRule(rules[i], reqc, signer, m)
      case None =>
        RuleEvalOutcome(RuleEvalResult(None, "", true, false, None, None), Some(NoMatchPrefix + signer.value.email))
  }

  /** First match wins: when two rules both admit the request and signer, the
      earlier one's name is reported. */
  lemma FirstMatchWins(r1: Rule, r2: Rule, reqc: ReqContext, signer: Option<SignerInfo>, m: Matcher)
    requires Admits(r1, reqc, signer, m) && Admits(r2, reqc, signer, m)
    ensures EvalRuleList([r1, r2], reqc, signer, m).result.allow
    ensures EvalRuleList([r1, r2], reqc, signer, m).result.signerName == r1.name
    ensures EvalRuleList([r1, r2], reqc, signer, m).result.matchedRule == Some(r1)
  {
    assert signer.Some?;
  }

  /** Prepending a rule that does not admit the request leaves the outcome of
      a non-empty list unchanged; prepending one that does makes it decide. */
  lemma {:induction false} EvalRuleListCons(r: Rule, rest: seq<Rule>, reqc: ReqContext, signer: Option<SignerInfo>, m: Matcher)
    requires signer.Some?
    ensures Admits(r, reqc, signer, m) ==> EvalRuleList([r] + rest, reqc, signer, m) == EvalRule(r, reqc, signer, m)
    ensures !Admits(r, reqc, signer, m) && |rest| > 0 ==>
      EvalRuleList([r] + rest, reqc, signer, m) == EvalRuleList(rest, reqc, signer, m)
  {
    if !Admits(r, reqc, signer, m) {
      FirstAllowingShift(r, rest, 0, reqc, signer, m);
    }
  }

  lemma {:induction false} FirstAllowingShift(r: Rule, rest: seq<Rule>, from: nat, reqc: ReqContext, signer: Option<SignerInfo>, m: Matcher)
    requires from <= |rest|
    ensures FirstAllowing(rest, from, reqc, signer, m).None? ==>
      FirstAllowing([r] + rest, from + 1, reqc, signer, m).None?
    ensures FirstAllowing(rest, from, reqc, signer, m).Some? ==>
      FirstAllowing([r] + rest, from + 1, reqc, signer, m) == Some(FirstAllowing(rest, from, reqc, signer, m).value + 1)
    decreases |rest| - from
  {
    var rules := [r] + rest;
    if from == |rest| {
      assert from + 1 == |rules|;
    } else {
      assert rules[from + 1] == rest[from];
      if !EvalRule(rest[from], reqc, signer, m).result.allow {
        FirstAllowingShift(r, rest, from + 1, reqc, signer, m);
      }
    }
  }
}
