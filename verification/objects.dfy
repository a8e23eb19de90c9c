// Kubernetes objects the controller reads and writes.
module Objects {
  import opened Canonical

  // One constructor per annotation key the code names; any other key is Custom.
  datatype AnnotationKey =
    | IssuerName | IssuerKind | IssuerGroup
    | SourceHashKey | SecretHashKey | LastSyncTime | ChainKey | SecretNameKey
    | CommonName | AltNames | NotBefore | NotAfter
    | DriftReason | DriftMessage | DriftAt
    | Custom(name: string)

  type Annotations = map<AnnotationKey, string>

  const DRIFT_KEYS := {DriftReason, DriftMessage, DriftAt}

  const TLS_CRT := "tls.crt"
  const TLS_KEY := "tls.key"
  const CA_CRT := "ca.crt"
  const KEYSTORE_JKS := "keystore.jks"
  const KEYSTORE_P12 := "keystore.p12"
  const KEYSTORE_PASSWORD := "keystore.password"

  datatype ObjectKey = ObjectKey(namespace: string, name: string)

  // A controller reference; the uid stands for one Certificate of the cluster.
  datatype OwnerRef = OwnerRef(name: string, uid: string)

  datatype Secret = Secret(
    kind: string,
    data: Data,
    annotations: Annotations,
    labels: map<string, string>,
    owners: seq<OwnerRef>)

  type Store = map<ObjectKey, Secret>

  datatype Certificate = Certificate(
    namespace: string, name: string, uid: string, secretName: string,
    issuerName: string, issuerKind: string, issuerGroup: string)
  {
    // The Secret in the Certificate's own namespace.
    function Own(): ObjectKey {
      ObjectKey(namespace, secretName)
    }
  }
}
