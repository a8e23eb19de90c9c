// The library calls the controller makes and this project does not look into.
module Library {
  import opened Common

  // What the controller reads of a parsed certificate, besides its DER.
  datatype CertInfo = CertInfo(issuer: string, subject: string, commonName: string, dnsNames: seq<string>,
                               notBefore: string, notAfter: string)

  datatype X509 = X509(raw: Der, info: CertInfo)

  // x509.ParseCertificate, CheckSignatureFrom, the three private key parsers, and SHA-256 in
  // hexadecimal over text and over DER.
  datatype Crypto = Crypto(
    parse: Der -> Option<CertInfo>,
    signedBy: (X509, X509) -> bool,
    pkcs8: Der -> bool,
    pkcs1: Der -> bool,
    ec: Der -> bool,
    digest: string -> string,
    fingerprint: Der -> string)

  // A parsed certificate keeps the DER it was parsed from.
  function ParseCert(lib: Crypto, d: Der): Option<X509> {
    match lib.parse(d) case None => None case Some(info) => Some(X509(d, info))
  }

  predicate SelfIssued(c: X509) {
    c.info.issuer == c.info.subject
  }

  // A library that takes every certificate and every key and whose digests never collide.
  function PlainLibrary(): Crypto {
    Crypto((d: Der) => Some(CertInfo("ca", "leaf", "leaf", [], "", "")), (c: X509, p: X509) => true,
           (d: Der) => true, (d: Der) => true, (d: Der) => true, (s: string) => "#" + s,
           (d: Der) => seq(|d|, j requires 0 <= j < |d| => d[j] as char))
  }
}
