/** Records shared by the enforcer's signing-policy engine and the verifier's
    admission handler: the request context, the verified signer identity, the
    check error and the outward-facing decision. */
module Common {
  import opened Wrappers

  newtype byte = x: int | 0 <= x < 256

  /** The glob matcher `MatchPattern(pattern, value)`. Its syntax is not part of
      this model, so every operation that matches takes it as a parameter and
      every property is stated relative to it. */
  type Matcher = (string, string) -> bool

  /** The request under admission. `groupVersion` is the value of the request's
      `GroupVersion()`, whose own code is not part of this model. */
  datatype ReqContext = ReqContext(
    groupVersion: string,
    kind: string,
    name: string,
    namespace: string,
    resourceScope: string,
    operation: string,
    rawObject: seq<byte>,
    userName: string,
    userGroups: seq<string>,
    dryRun: bool)

  /** The signer identity extracted by signature verification. */
  datatype SignerInfo = SignerInfo(
    email: string,
    uid: string,
    country: string,
    organization: string,
    organizationalUnit: string,
    locality: string,
    province: string,
    streetAddress: string,
    postalCode: string,
    commonName: string,
    serialNumber: string)

  /** The eleven identity attributes, in the order the subject matcher compares them.
      The rule's subject pattern and the policy's subject pattern are separate
      types with the same eleven fields, so each has its own field list. */
  function SignerFields(s: SignerInfo): (fs: seq<string>)
    ensures |fs| == 11
  {
    [s.email, s.uid, s.country, s.organization, s.organizationalUnit, s.locality,
     s.province, s.streetAddress, s.postalCode, s.commonName, s.serialNumber]
  }

  /** Pointwise matching of a list of patterns against a list of values. */
  predicate AllMatch(m: Matcher, patterns: seq<string>, values: seq<string>)
    requires |patterns| == |values|
  {
    forall i :: 0 <= i < |patterns| ==> m(patterns[i], values[i])
  }

  /** `cause` is the wrapped Go error (its message), `reason` the text shown to the user. */
  datatype CheckError = CheckError(cause: Option<string>, reason: string)

  /** The decision handed back to the admission handler. */
  datatype SignPolicyEvalResult = SignPolicyEvalResult(
    signer: Option<SignerInfo>,
    signerName: string,
    allow: bool,
    checked: bool,
    matchedPolicy: string,
    error: Option<CheckError>)

  predicate IsPrefix(p: string, s: string) {
    |p| <= |s| && s[..|p|] == p
  }

  predicate IsSuffix(t: string, s: string) {
    |t| <= |s| && s[|s| - |t|..] == t
  }
}
