/** The policy package's signer-match pattern: a request pattern plus a named
    subject condition. Only the fields the signing-policy engine converts are
    modelled. */
module PolicyPatterns {

  datatype RequestMatchPattern = RequestMatchPattern(
    apiVersion: string,
    kind: string,
    name: string,
    namespace: string)

  datatype SubjectMatchPattern = SubjectMatchPattern(
    email: string,
    uid: string,
    country: string,
    organization: string,
    organizationalUnit: string,
    locality: string,
    province: string,
    streetAddress: string,
    postalCode: string,
    commonName: string,
    serialNumber: string)

  datatype SubjectCondition = SubjectCondition(name: string, subject: SubjectMatchPattern)

  datatype SignerMatchPattern = SignerMatchPattern(
    request: RequestMatchPattern,
    condition: SubjectCondition)

  /** Field lists of the policy package's own pattern types; the rule types
      of the signing-policy engine have their own lists with the same order. */
  function RequestPatternFields(r: RequestMatchPattern): (fs: seq<string>)
    ensures |fs| == 4
  {
    [r.apiVersion, r.kind, r.name, r.namespace]
  }

  function SubjectPatternFields(s: SubjectMatchPattern): (fs: seq<string>)
    ensures |fs| == 11
  {
    [s.email, s.uid, s.country, s.organization, s.organizationalUnit, s.locality,
     s.province, s.streetAddress, s.postalCode, s.commonName, s.serialNumber]
  }
}
