/**
 Certificates, issuers and the decisions the certificate manager takes about
 them (pkg/certificate/certificate.go, manager.go and providers/tresor).
 Times and durations are nanoseconds.
 */
module Certificates {
  import opened Prelude
  import opened CertOptions

  type Bytes = seq<bv8>

  const SECOND: int := 1_000_000_000
  const RENEW_BEFORE: int := 30 * SECOND
  const NOISE_SECONDS: nat := 5
  const INTERNAL_VALIDITY: int := 87600 * 3600 * SECOND

  datatype CertType = Internal | IngressGateway | Service | OtherType(name: string)

  /** The two configured validity periods. */
  datatype Validity = Validity(service: int, ingress: int)

  function ValidityFor(ct: CertType, validity: Validity): int {
    match ct
    case IngressGateway => validity.ingress
    case Service => validity.service
    case _ => INTERNAL_VALIDITY
  }

  datatype Certificate = Certificate(
    cn: string,
    saNames: seq<string>,
    serial: nat,
    expiration: int,
    issuingCA: Bytes,
    trustedCAs: Bytes,
    signingID: string,
    validatingID: string,
    certType: CertType)

  /** How an issuer turns the requested SANs into those of the certificate:
      unchanged, or with the common name first, as the built-in issuer does. */
  datatype SanPolicy = Echo | PrependCommonName

  datatype Issuer = Issuer(id: string, trustDomain: string, ca: Bytes, issuingCA: Bytes, policy: SanPolicy)

  /** The signing and the validating issuer, read together. */
  datatype Pair = Pair(signing: Issuer, validating: Issuer)

  function IssuedNames(policy: SanPolicy, cn: string, saNames: seq<string>): seq<string> {
    match policy
    case Echo => saNames
    case PrependCommonName => Unique([cn] + saNames, [])
  }

  /** A certificate as the issuer returns it, before the manager labels it. */
  function Issue(issuer: Issuer, cn: string, saNames: seq<string>, period: int, now: int, serial: nat): Certificate {
    Certificate(cn, IssuedNames(issuer.policy, cn, saNames), serial, now + period,
                issuer.issuingCA, issuer.issuingCA, "", "", Internal)
  }

  /** `newMergedWithRoot`, on values. */
  function MergedWithRoot(c: Certificate, root: Bytes): Certificate {
    c.(trustedCAs := c.issuingCA + root)
  }

  /** The SANs requested from the issuer: those of the certificate being rotated, else the options'. */
  function RequestedNames(o: IssueOptions, prev: Option<Certificate>): seq<string> {
    Unique(if prev.Some? then Unique(prev.value.saNames, []) else o.saNames, [])
  }

  function Period(o: IssueOptions, ct: CertType, validity: Validity): int {
    if o.validity.Some? then o.validity.value else ValidityFor(ct, validity)
  }

  /** The certificate that is stored for `key`; `prev` is the one it replaces, if any. */
  function NewCertificate(key: string, ct: CertType, o: IssueOptions, prev: Option<Certificate>, pair: Pair,
                          validity: Validity, now: int, serial: nat): Certificate
  {
    var cn := FormatCN(o.fullCN, key, pair.signing.trustDomain);
    var issued := Issue(pair.signing, cn, RequestedNames(o, prev), Period(o, ct, validity), now, serial);
    var merged := if pair.validating.id != pair.signing.id then MergedWithRoot(issued, pair.validating.ca) else issued;
    merged.(signingID := pair.signing.id, validatingID := pair.validating.id, certType := ct)
  }

  /** Close enough to expiry, given the random noise drawn for this check. */
  predicate Expiring(c: Certificate, now: int, noise: nat) {
    c.expiration - now <= RENEW_BEFORE + noise * SECOND
  }

  predicate Superseded(c: Certificate, pair: Pair) {
    c.signingID != pair.signing.id || c.validatingID != pair.validating.id
  }

  predicate ShouldRotate(c: Certificate, pair: Pair, now: int, noise: nat) {
    Expiring(c, now, noise) || Superseded(c, pair)
  }

  /** The options a rotation pass uses for a certificate found under `key`. */
  function PassOptions(key: string, c: Certificate): IssueOptions {
    if key == c.cn then IssueOptions(true, None, Unique(c.saNames, [key])) else NO_OPTIONS
  }

  /** The trust context of a stored certificate: the issuing CA, then the validating CA when it differs. */
  lemma TrustContext(key: string, ct: CertType, o: IssueOptions, prev: Option<Certificate>, pair: Pair,
                     validity: Validity, now: int, serial: nat)
    ensures var c := NewCertificate(key, ct, o, prev, pair, validity, now, serial);
      && c.issuingCA == pair.signing.issuingCA
      && c.trustedCAs == pair.signing.issuingCA +
           (if pair.signing.id != pair.validating.id then pair.validating.ca else [])
      && !Superseded(c, pair)
  {
    assert pair.signing.issuingCA + [] == pair.signing.issuingCA;
  }

  /** Its name, type and lifetime: a duration given by the caller, else the period of its type, which is
      ten years (of 365 days) for all but ingress and service certificates. */
  lemma NameAndLifetime(key: string, ct: CertType, o: IssueOptions, prev: Option<Certificate>, pair: Pair,
                        validity: Validity, now: int, serial: nat)
    ensures var c := NewCertificate(key, ct, o, prev, pair, validity, now, serial);
      && c.certType == ct && c.serial == serial
      && c.cn == (if o.fullCN then key else key + "." + pair.signing.trustDomain)
      && (o.validity.Some? ==> c.expiration == now + o.validity.value)
      && (o.validity.None? && ct == Service ==> c.expiration == now + validity.service)
      && (o.validity.None? && ct == IngressGateway ==> c.expiration == now + validity.ingress)
      && (o.validity.None? && ct != Service && ct != IngressGateway ==>
            c.expiration == now + 10 * 365 * 24 * 3600 * 1_000_000_000)
  {
  }

  /** A certificate on the heap, with byte buffers that may be shared. */
  class CertificateObject {
    const issuingCA: array<bv8>
    var trustedCAs: array<bv8>
    var signingID: string
    var validatingID: string

    constructor (issuing: array<bv8>, trusted: array<bv8>, signing: string, validating: string)
      ensures issuingCA == issuing && trustedCAs == trusted
      ensures signingID == signing && validatingID == validating
    {
      issuingCA, trustedCAs, signingID, validatingID := issuing, trusted, signing, validating;
    }

    /** Copies the certificate and gives the copy a buffer of its own, so that no
        certificate or buffer handed out before is touched. */
    method NewMergedWithRoot(root: array<bv8>) returns (c: CertificateObject)
      ensures fresh(c) && fresh(c.trustedCAs)
      ensures c.issuingCA == issuingCA && c.signingID == signingID && c.validatingID == validatingID
      ensures c.trustedCAs[..] == issuingCA[..] + root[..]
    {
      var n := issuingCA.Length;
      var buf := new bv8[n + root.Length];
      for i := 0 to n
        invariant buf[..i] == issuingCA[..i]
      {
        buf[i] := issuingCA[i];
      }
      for i := 0 to root.Length
        invariant buf[..n + i] == issuingCA[..] + root[..i]
      {
        buf[n + i] := root[i];
      }
      assert buf[..] == buf[..n + root.Length];
      assert root[..] == root[..root.Length];
      c := new CertificateObject(issuingCA, buf, signingID, validatingID);
    }
  }
}
