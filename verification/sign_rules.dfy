/** Signing-policy rules: a rule pairs a resource pattern with a subject
    pattern, and matches a request when all four resource coordinates and all
    eleven signer attributes match their patterns. Also the two converters
    between rules and the policy package's signer-match patterns. */
module SignRules {
  import opened Wrappers
  import opened Common
  import opened PolicyPatterns

  /** The rule's decision type; the empty string of the source is `Unknown`. */
  datatype RuleType = Unknown | Allow | Deny

  datatype Subject = Subject(
    email: string,
    uid: string,
    country: string,
    organization: string,
    organizationalUnit: string,
    locality: string,
    province: string,
    streetAddress: string,
    postalCode: string,
    commonName: string,
    serialNumber: string)

  datatype Resource = Resource(
    apiVersion: string,
    kind: string,
    name: string,
    namespace: string)

  datatype Rule = Rule(
    ruleType: RuleType,
    resource: Resource,
    subject: Subject,
    name: string)

  /** The two answers of `MatchSigner`: whether the whole rule matched, and
      whether its resource part did. */
  datatype MatchOutcome = MatchOutcome(ruleOk: bool, resourceMatched: bool)

  /** The subject pattern's eleven fields, in the order of `SignerFields`;
      a separate list because `Subject` is a separate type, as in the source. */
  function SubjectFields(v: Subject): (fs: seq<string>)
    ensures |fs| == 11
  {
    [v.email, v.uid, v.country, v.organization, v.organizationalUnit, v.locality,
     v.province, v.streetAddress, v.postalCode, v.commonName, v.serialNumber]
  }

  /** The resource pattern's four fields, in the order of the request
      pattern's `RequestPatternFields`. */
  function ResourceFields(r: Resource): (fs: seq<string>)
    ensures |fs| == 4
  {
    [r.apiVersion, r.kind, r.name, r.namespace]
  }

  /** `Subject.Match`: an absent signer never matches; a present one matches
      when every one of the eleven attribute patterns matches. */
  function SubjectMatch(v: Subject, signer: Option<SignerInfo>, m: Matcher): (ok: bool)
    ensures signer.None? ==> !ok
    ensures signer.Some? ==> (ok <==> AllMatch(m, SubjectFields(v), SignerFields(signer.value)))
  {
    match signer
    case None => false
    case Some(s) =>
      var ok :=
        m(v.email, s.email) &&
        m(v.uid, s.uid) &&
        m(v.country, s.country) &&
        m(v.organization, s.organization) &&
        m(v.organizationalUnit, s.organizationalUnit) &&
        m(v.locality, s.locality) &&
        m(v.province, s.province) &&
        m(v.streetAddress, s.streetAddress) &&
        m(v.postalCode, s.postalCode) &&
        m(v.commonName, s.commonName) &&
        m(v.serialNumber, s.serialNumber);
      SubjectMatchAgrees(v, s, m);
      ok
  }

  lemma SubjectMatchAgrees(v: Subject, s: SignerInfo, m: Matcher)
    ensures AllMatch(m, SubjectFields(v), SignerFields(s)) <==>
      (m(v.email, s.email) &&
       m(v.uid, s.uid) &&
       m(v.country, s.country) &&
       m(v.organization, s.organization) &&
       m(v.organizationalUnit, s.organizationalUnit) &&
       m(v.locality, s.locality) &&
       m(v.province, s.province) &&
       m(v.streetAddress, s.streetAddress) &&
       m(v.postalCode, s.postalCode) &&
       m(v.commonName, s.commonName) &&
       m(v.serialNumber, s.serialNumber))
  {
    var ps, vs := SubjectFields(v), SignerFields(s);
    if AllMatch(m, ps, vs) {
      assert m(ps[0], vs[0]) && m(ps[1], vs[1]) && m(ps[2], vs[2]) && m(ps[3], vs[3]);
      assert m(ps[4], vs[4]) && m(ps[5], vs[5]) && m(ps[6], vs[6]) && m(ps[7], vs[7]);
      assert m(ps[8], vs[8]) && m(ps[9], vs[9]) && m(ps[10], vs[10]);
    }
  }

  /** `MatchSigner`: the rule's resource part is checked against the four
      request coordinates; only when it matches is the subject consulted. */
  function MatchSigner(r: Rule, apiVersion: string, kind: string, name: string,
                       namespace: string, signer: Option<SignerInfo>, m: Matcher): (o: MatchOutcome)
    ensures o.resourceMatched <==> AllMatch(m, ResourceFields(r.resource), [apiVersion, kind, name, namespace])
    ensures o.ruleOk <==> o.resourceMatched && SubjectMatch(r.subject, signer, m)
    ensures signer.None? ==> !o.ruleOk
  {
    var apiVersionOk := m(r.resource.apiVersion, apiVersion);
    var kindOk := m(r.resource.kind, kind);
    var nameOk := m(r.resource.name, name);
    var namespaceOk := m(r.resource.namespace, namespace);
    var resourceMatched := apiVersionOk && kindOk && nameOk && namespaceOk;
    assert resourceMatched <==> AllMatch(m, ResourceFields(r.resource), [apiVersion, kind, name, namespace]) by {
      var ps, vs := ResourceFields(r.resource), [apiVersion, kind, name, namespace];
      if AllMatch(m, ps, vs) {
        assert m(ps[0], vs[0]) && m(ps[1], vs[1]) && m(ps[2], vs[2]) && m(ps[3], vs[3]);
      }
    }
    if resourceMatched then
      MatchOutcome(SubjectMatch(r.subject, signer, m), resourceMatched)
    else
      MatchOutcome(false, resourceMatched)
  }

  /** The resource answer of `MatchSigner` sees only the rule's resource
      pattern and the four coordinates: neither the signer, the subject pattern,
      the rule's name nor its type can change it. */
  lemma ResourceMatchIgnoresSigner(r1: Rule, r2: Rule, apiVersion: string, kind: string, name: string,
                                   namespace: string, s1: Option<SignerInfo>, s2: Option<SignerInfo>, m: Matcher)
    requires r1.resource == r2.resource
    ensures MatchSigner(r1, apiVersion, kind, name, namespace, s1, m).resourceMatched
         == MatchSigner(r2, apiVersion, kind, name, namespace, s2, m).resourceMatched
  {
  }

  /** `ToPolicyRule`: every converted rule is an `Allow` rule, and converting
      back yields the original pattern. */
  function ToPolicyRule(p: SignerMatchPattern): (r: Rule)
    ensures r.ruleType == Allow
    ensures ToSignerMatchPattern(r) == p
  {
    Rule(
      Allow,
      Resource(p.request.apiVersion, p.request.kind, p.request.name, p.request.namespace),
      Subject(
        p.condition.subject.email,
        p.condition.subject.uid,
        p.condition.subject.country,
        p.condition.subject.organization,
        p.condition.subject.organizationalUnit,
        p.condition.subject.locality,
        p.condition.subject.province,
        p.condition.subject.streetAddress,
        p.condition.subject.postalCode,
        p.condition.subject.commonName,
        p.condition.subject.serialNumber),
      p.condition.name)
  }

  /** `ToSignerMatchPattern`: the request, subject and name fields carry over
      field for field; the rule's type is dropped. */
  function ToSignerMatchPattern(r: Rule): (p: SignerMatchPattern)
    ensures RequestPatternFields(p.request) == ResourceFields(r.resource)
    ensures SubjectPatternFields(p.condition.subject) == SubjectFields(r.subject)
    ensures p.condition.name == r.name
  {
    SignerMatchPattern(
      RequestMatchPattern(r.resource.apiVersion, r.resource.kind, r.resource.name, r.resource.namespace),
      SubjectCondition(
        r.name,
        SubjectMatchPattern(
          r.subject.email,
          r.subject.uid,
          r.subject.country,
          r.subject.organization,
          r.subject.organizationalUnit,
          r.subject.locality,
          r.subject.province,
          r.subject.streetAddress,
          r.subject.postalCode,
          r.subject.commonName,
          r.subject.serialNumber)))
  }

  /** Converting a rule to a pattern and back restores it exactly when the
      rule is an `Allow` rule: the type is the one field the pattern lacks. */
  lemma RuleRoundTrip(r: Rule)
    ensures ToPolicyRule(ToSignerMatchPattern(r)) == r <==> r.ruleType == Allow
  {
  }

  /** Distinct patterns give distinct rules. */
  lemma ToPolicyRuleInjective(p1: SignerMatchPattern, p2: SignerMatchPattern)
    requires ToPolicyRule(p1) == ToPolicyRule(p2)
    ensures p1 == p2
  {
    assert ToSignerMatchPattern(ToPolicyRule(p1)) == p1;
  }

  /** The all-empty subject pattern. */
  const AnySubject := Subject("", "", "", "", "", "", "", "", "", "", "")

  /** When the matcher treats the empty pattern as unconstrained, the all-empty
      subject pattern admits every present signer, and still no absent one. */
  lemma AnySubjectMatchesEverySigner(m: Matcher, signer: Option<SignerInfo>)
    requires forall v: string :: m("", v)
    ensures SubjectMatch(AnySubject, signer, m) <==> signer.Some?
  {
  }
}
