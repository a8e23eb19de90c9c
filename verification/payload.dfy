// internal/controller/parse.go: Extract.
module Payload {
  import opened Common
  import opened Normalize

  // A member of the JSON object: a string, null, or the raw text of any other value.
  datatype Field = Quoted(text: string) | Null | Other(raw: string)

  type Document = map<string, Field>

  datatype PayloadKeys = PayloadKeys(certificate: string, privateKey: string, certificateChain: string)
  {
    function CertificateOrDefault(): string {
      if certificate == "" then "certificate" else certificate
    }

    function PrivateKeyOrDefault(): string {
      if privateKey == "" then "private_key" else privateKey
    }

    function CertificateChainOrDefault(): string {
      if certificateChain == "" then "certificate_chain" else certificateChain
    }
  }

  datatype Extracted = Extracted(certificate: string, privateKey: string, chain: string)

  datatype ExtractError = InvalidJson | MissingField(name: string)

  // Unmarshalling null into a string leaves it empty; anything that is not a string keeps its raw text.
  function MustUnquote(f: Field): string {
    match f
    case Quoted(text) => text
    case Null => ""
    case Other(raw) => raw
  }

  predicate Present(doc: Document, name: string) {
    name in doc && doc[name] != Quoted("")
  }

  // `None` is text that is not a JSON object.
  ghost function Extract(doc: Option<Document>, keys: PayloadKeys): Result<Extracted, ExtractError> {
    var certKey, keyKey, chainKey :=
      keys.CertificateOrDefault(), keys.PrivateKeyOrDefault(), keys.CertificateChainOrDefault();
    if doc.None? then Failure(InvalidJson)
    else if !Present(doc.value, certKey) then Failure(MissingField(certKey))
    else if !Present(doc.value, keyKey) then Failure(MissingField(keyKey))
    else
      Success(Extracted(
        Normalized(MustUnquote(doc.value[certKey])),
        Normalized(MustUnquote(doc.value[keyKey])),
        if Present(doc.value, chainKey) then Normalized(MustUnquote(doc.value[chainKey])) else ""))
  }

  // The text of a field, as json.Unmarshal leaves it or, where it is no string, as it stands in the payload.
  ghost predicate ReadsAs(f: Field, text: string) {
    (f.Quoted? && f.text == text) || (f.Null? && text == "") || (f.Other? && f.raw == text)
  }

  // The names are those configured on the issuer, and the default names where none is. A certificate and a key that are
  // there and not the empty string are needed, in this order; the chain may be missing.
  lemma ExtractReads(doc: Document, keys: PayloadKeys)
    ensures Extract(None, keys) == Failure(InvalidJson)
    ensures
      var certificate := if keys.certificate != "" then keys.certificate else "certificate";
      var key := if keys.privateKey != "" then keys.privateKey else "private_key";
      var chain := if keys.certificateChain != "" then keys.certificateChain else "certificate_chain";
      var r := Extract(Some(doc), keys);
      if certificate !in doc || doc[certificate] == Quoted("") then r == Failure(MissingField(certificate))
      else if key !in doc || doc[key] == Quoted("") then r == Failure(MissingField(key))
      else
        && r.Success?
        && (forall t :: ReadsAs(doc[certificate], t) ==> r.value.certificate == Normalized(t))
        && (forall t :: ReadsAs(doc[key], t) ==> r.value.privateKey == Normalized(t))
        && (chain !in doc || doc[chain] == Quoted("") ==> r.value.chain == "")
        && (chain in doc && doc[chain] != Quoted("") ==>
              forall t :: ReadsAs(doc[chain], t) ==> r.value.chain == Normalized(t))
  {
    hide Normalized;
  }
}
