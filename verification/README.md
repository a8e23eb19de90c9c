# A verified model of the certificate mirror

The controller copies certificates from cloud providers into Kubernetes Secrets. This project models it in
Dafny 4.11 and proves what it keeps, over every input and over every run. `dafny verify dfyconfig.toml` checks
the whole project.

## How it is built

| file | subject |
|---|---|
| common.dfy, library.dfy, objects.dfy | vocabulary, the library calls nobody looks into, the Kubernetes objects |
| canonical.dfy | the length-prefixed hash pre-images |
| base64.dfy, pem.dfy, normalize.dfy | the PEM printer and scanner, and `NormalizePEM` |
| chain.dfy, keystore.dfy, payload.dfy | signing paths, root completion, bundle splitting, key stores, `Extract` |
| conditions.dfy, store.dfy, reconcile.dfy | conditions, `WriteSecret`, markers, fan-out, and both drivers as functions of what a run sees |
| controller.dfy | the same drivers step by step on a `Cluster` object, each method proved equal to its function |
| runs.dfy, verified.dfy, coherent.dfy, mixed.dfy, delivery.dfy, second.dfy, endings.dfy, inputs.dfy, fanout.dfy, contents.dfy | theorems about single runs and about all sequences of runs, and runs that show where they end |
| converter.dfy, zip.dfy, resync.dfy, clientcache.dfy | `jks2secret`, the Tencent archive, the drift sweep, the client cache |

A Go byte string that is text or hash input is a `string` with one character per byte; DER is a `seq<byte>`.
X.509 parsing, signature checks, private key parsing, SHA-256 and the two key store formats are parameters
(`Library.Crypto`, `Keystore.Formats`). Where a theorem needs a digest not to collide, or a key store to open
again with its password, that is a precondition: for single writes about the two pre-images at hand, for runs
about the digest as a whole.

A run reads the Certificate, a source, the time, the namespace list, the randomness of a key store build and
which API calls fail, all as one `Reconcile.Input`. A failed call changes nothing. `Runs.Exec` is any sequence of
runs of both drivers, of any Certificates, from any store.

## Where the code and its texts differ

The model follows the code.

- `WriteSecret`'s comment calls a reconcile of an unrotated certificate a no-op. Of the next reconcile of the same
  source, where API calls and builds fail for no other reason than the source: the fan-out writes nothing if and only if
  last-sync-time, one of the annotations compared, is the same and the Secret in the Certificate's own namespace held a
  reusable key store before, or that namespace is among the targets, or no key store can be built. It touches no Secret
  at all, markers included, if and only if the time is the same and that Secret held a reusable key store, or the
  namespace is among the targets and a key store can be built, or neither is the case and no Secret is there:
  `SecondReconcile.SecondReconcileDecided`; with builds that fail by chance, `SecondReconcile.SecondReconcileQuiet` and
  `SecondReconcile.SecondReconcileUntouched`. Inputs: another second (`SecondReconcile.LaterSecondRewrites`); in the same
  second, an Allow list that leaves the own namespace out (`Inputs.ExcludedNamespaceRewrites`) and a source without a
  private key, whose Secret is marked and cleared every time (`Inputs.KeylessMarksAgain`).
- docs/FEATURE.md announces failures as `Ready=False`. The code sets `ExternalIssuerSynced` and leaves `Ready`
  alone: `Endings.RunEndingSays`.
- A failed or skipped key store build is said to stay visible until the next reconcile (certsync.go:158). While the
  marker calls succeed, a run that ends synced clears the mark and a run that ends marked replaces it by its own. It
  stays only after the failure that is not marked (certsync.go:211-213): on the Certificate always, on the Secret exactly
  when the fan-out had no reason to write it: `Endings.EndingSays`, and an input where the two part in
  `Inputs.MarkOutlivesSecret`. A run that ends synced keeps it, on the same two sides, exactly when `clearSecretDrift`
  fails: `Endings.SyncedWithoutKeystore`.
- `NormalizePEM` is said to return its input when it holds no block. It returns the glue-split text, which is the
  input exactly when there was no glue: `Normalize.FallbackIsOriginal`, `Normalize.FallbackDiffers`.
- The key store password is said to be stable across rebuilds. It is for the certificate and key text passed to the
  build (`Keystore.PasswordStable`), but `CertSyncer` passes the leaf alone and it is compared with all of `tls.crt`: a
  rebuild beside an unchanged `tls.crt` and `tls.key` keeps the password exactly when `tls.crt` is a single certificate,
  and else takes the fresh draw: `Coherent.PasswordKeptWithoutChain`.
- A leaf whose alias is `chain-0`, `chain-1`, … loses its private key entry to the trusted entry of that name, and no
  other leaf does: `Keystore.KeystoreAgreesWithBundle`, and an input in `Keystore.AliasClash`.
- The two drivers write the same source hash over key stores built from different texts. Reuse is sound for runs of
  either alone, and for runs of both as long as they agree on the payloads (`Coherent.MixedKeystoresCoherent`). On
  certificates none of which comes twice they agree (`MixedDrivers.PrintedPayloadsAgree`). Where one does, `CertSyncer`
  drops the repetition before completion and `IssuerReconciler` only where a known root completes the chain; so, on
  certificates that parse and with a key that can be used, they agree if and only if a leaf that comes again in the chain is followed by a last certificate that is not self-issued and that
  a known root verifies, and the root added is the same with and without the repetitions:
  `MixedDrivers.ViewsAgreeExactly`, `MixedDrivers.RepeatedLeafAgrees`. A self-issued leaf that comes again as the chain is
  an input where they part: `MixedDrivers.RepeatedLeafParts`.
- A skipped write leaves absent an annotation that is desired to be empty and was not there, like the common name of a
  certificate without one, which the write it stands for would put there: `SecretStore.WriteRefinesOverwrite`,
  `SecretStore.EmptyStaysAbsent`.
- A write keeps to the owner references of the write it stands for unless it is skipped, the desired Secret names an
  owner and the stored one has others: `SecretStore.OwnersRefineOverwrite`, and an input in `SecretStore.SkipKeepsOwners`.
- `appendPEM`'s comment names the missing final newline as what drops blocks of an archive. A file that leaves a BEGIN
  line open does it too: exactly the files that leave none whose body could still become base64 keep their blocks and
  those of the next file apart: `Zip.SettledExact`, `Zip.OpenFilesMix`.

## Model

| member | source | states |
|---|---|---|
| Canonical.SourceHash | internal/controller/hash.go:38-45 | the running hash has consumed the pre-image of the three fields |
| Canonical.SourcePreimageInjective | internal/controller/hash.go:38-45 | equal pre-images only for equal certificate, key and chain |
| Canonical.HashSecretData | internal/controller/hash.go:49-61 | whatever order the map is enumerated in, the sorted keys give one pre-image |
| Canonical.DataPreimageCanonical | internal/controller/hash.go:47-61 | every ascending listing of the keys writes the same bytes |
| Canonical.DataPreimageInjective | internal/controller/hash.go:47-61 | two Data maps give the same bytes only if they are equal, digits and colons in keys or values notwithstanding |
| Canonical.FieldCancel | internal/controller/hash.go:41-42 | a length-prefixed field and what follows it can be told apart |
| Canonical.CredentialPreimageInjective | internal/controller/tencentcert/issuer.go:54-64 | equal pre-images only for equal id and key |
| Canonical.SourcePreimageReads | internal/controller/hash.go:38-45 | the pre-image at a value, as text |
| Canonical.DataPreimageReads | internal/controller/hash.go:49-61 | the same for a Data map |
| Canonical.CredentialPreimageReads | internal/controller/tencentcert/issuer.go:54-64 | the same for a credential |
| Canonical.DecimalReads | internal/controller/hash.go:41 | a length is printed in decimal digits without leading zeros |
| Canonical.BelowAtDifference | internal/controller/hash.go:54 | keys are ordered by the byte at the first difference, a prefix first |
| Canonical.SortStringsAscending | internal/controller/hash.go:50-54 | sorting a listing without repetitions gives an ascending listing of the same keys |
| Base64.DecodeEncode | internal/controller/parse.go:74-88 | the body encoding of a block decodes to its DER |
| Base64.AlphabetReads | internal/controller/parse.go:74-88 | Table 1 of RFC 4648 |
| Base64.VectorsEncode | internal/controller/parse.go:74-88 | test vectors of section 10 of RFC 4648, padding included |
| Base64.ExtensibleExact | internal/tencentcert/ssl.go:87-99 | exactly the texts that some continuation makes decodable |
| Pem.DecodeEncode | internal/controller/parse.go:74-88 | a printed block decodes to itself, with everything behind it as the rest |
| Pem.EncodeReads | internal/controller/parse.go:74-88 | a printed block, as text |
| Pem.LinesBroken | internal/controller/parse.go:74-88 | a body is broken after every 64 characters and nowhere else |
| Pem.DecodeAllPadded | internal/controller/parse.go:74-88 | carriage returns and other blanks at the ends of lines change nothing |
| Pem.SqueezeIgnores | internal/controller/parse.go:74-88 | nor do blanks inside the lines of a body |
| Pem.BeginRestarts | internal/controller/parse.go:74-88 | a BEGIN line without its END line does not hide the next block |
| Pem.OtherEnd | internal/controller/parse.go:74-88 | an END line under another label ends nothing |
| Pem.LabelsRead | internal/controller/parse.go:74-88 | which labels are labels |
| Pem.DecodeAllEncodeAll | internal/controller/parse.go:74-88 | printed blocks decode to themselves, in order |
| Pem.DecodeAllAppend | internal/tencentcert/ssl.go:87-99 | behind a terminated text that leaves no block a later line could complete, decoding starts afresh |
| Normalize.NormalizePEM | internal/controller/parse.go:64-96 | the loop with its set of digests keeps exactly the blocks whose DER no earlier block has |
| Normalize.NormalizedDecodes | internal/controller/parse.go:54-88 | with blocks in the glue-split text, the output decodes to their first occurrences in order |
| Normalize.NormalizedIdempotent | internal/controller/parse.go:64-96 | normalizing twice is normalizing once, on every input |
| Normalize.NormalizedIgnoresGlue | internal/controller/parse.go:68-72 | however the newlines between printed blocks got lost, the result is that of the intact text |
| Normalize.FallbackIsOriginal | internal/controller/parse.go:89-94 | without a block the glue-split text comes back, which is the input exactly if it held no glue |
| Normalize.FallbackDiffers | internal/controller/parse.go:72-94 | an input without blocks that does not come back unchanged |
| Normalize.SplitGlueFree | internal/controller/parse.go:72 | replacing leaves no occurrence of the pattern |
| Normalize.DedupProperties | internal/controller/parse.go:82-87 | what is kept has distinct DERs, covers every DER and starts with the first block |
| Normalize.DedupInOrder | internal/controller/parse.go:82-87 | the blocks kept are the first with their DER, in the order in which they come |
| Chain.VerifyChain | internal/controller/verify.go:18-51 | accepts exactly an absent chain or one that parses entirely and is a signing path; otherwise names the first obstacle |
| Chain.ChainAcceptedExactly | internal/controller/verify.go:18-51 | a chain is absent, or the leaf and all of its blocks parse, the leaf is signed by the first and each by the next |
| Chain.ParseIntermediates | internal/controller/verify.go:26-39 | all blocks of the chain parse, or the first that does not is reported |
| Chain.CheckLinks | internal/controller/verify.go:43-49 | every link holds, or the first that does not is reported |
| Chain.LastCert | internal/controller/roots.go:74-88 | the last block that parses |
| Chain.CompleteChain | internal/controller/roots.go:51-70 | appends the first known root that verifies the top, unless the top is absent or self-issued |
| Chain.CompletedUnchanged | internal/controller/roots.go:51-55 | a text without a certificate that parses, or whose last one has its subject for its issuer, stays as it is |
| Chain.CompletedByFirst | internal/controller/roots.go:56-69 | otherwise a distinct printed bundle gets the first known root that verifies its last certificate behind it, unless it holds that root; without one it stays as it is |
| Chain.CompletionAppends | internal/controller/roots.go:42-70 | on normalized text, nothing changes or exactly one new known root that signed the old top is appended |
| Chain.CompletionKeepsPath | internal/controller/certsync.go:112-153 | normalize, complete, split: same leaf, the chain longer by at most one known root, and still a signing path |
| Chain.CompletionIdempotent | internal/controller/roots.go:42-70 | with self-issued known roots a completed bundle is left alone |
| Chain.CompletionReportsRoot | internal/controller/verify.go:78-120 | a bundle that gained a root is described as holding one |
| Chain.ChainComposition | internal/controller/verify.go:85-120 | leaf, intermediate and root are reported by which certificates parse and are self-issued |
| Chain.CompositionNames | internal/controller/verify.go:95-120 | an intermediate is named if and only if a later certificate has another issuer than its subject, a root if and only if a later one has the same |
| Chain.CompositionText | internal/controller/verify.go:78-120 | the text in canonical order, each type at most once, empty for an empty bundle |
| Chain.SplitLeafAndChain | internal/keystore/keystore.go:218-239 | first CERTIFICATE block and all later ones, others dropped |
| Chain.SplitPrinted | internal/keystore/keystore.go:215-239 | splitting a printed bundle gives back its leaf and its tail |
| Keystore.ParseChainDER | internal/keystore/keystore.go:175-213 | CERTIFICATE blocks that parse, first occurrences in order; an error only if something was there and nothing is left |
| Keystore.ChainDerHolds | internal/keystore/keystore.go:175-213 | each DER of a CERTIFICATE block that parses, once; none exactly if the text is not empty and has no such block |
| Keystore.ChainCertsAppend | internal/keystore/keystore.go:183-205 | in the order of the text |
| Keystore.BuildJKS | internal/keystore/keystore.go:67-121 | the entries, or no key store without leaf, PKCS#8 key block or readable chain |
| Keystore.BuildPKCS12 | internal/keystore/keystore.go:128-157 | the content, or none without leaf, parseable key or readable chain |
| Keystore.ContentsRead | internal/keystore/keystore.go:67-157 | what both hold when leaf and chain read, or none without a key block of the right kind |
| Keystore.ContentsMissing | internal/keystore/keystore.go:67-157 | nothing without leaf, key block or readable chain |
| Keystore.BuiltExactly | internal/keystore/keystore.go:255-276 | a build is skipped for want of a key alone, and delivers exactly when a password can be had, both have their content and neither writer fails; which key stores then, under one password |
| Keystore.KeystoreAgreesWithBundle | internal/keystore/keystore.go:86-114 | trusted entries are exactly the tail of the bundle; the private key entry carries the whole bundle if and only if its alias is none of theirs |
| Keystore.AliasClash | internal/keystore/keystore.go:90-114 | a leaf named chain-0 with one certificate behind it: a key store without the key |
| Keystore.P12AgreesWithBundle | internal/keystore/keystore.go:128-157 | the PKCS#12 content is the key, the leaf and exactly the tail |
| Coherent.KeystoreAgreesWithTlsCrt | internal/controller/certsync.go:112-155 | the key store built beside `tls.crt` carries exactly the certificates of `tls.crt`, none lost or repeated |
| Keystore.PasswordStable | internal/keystore/keystore.go:32-48 | the password of a build does not depend on the random draw exactly when one was stored beside this certificate and key, and then it is that one |
| Keystore.BuildKeystore | internal/controller/hash.go:71-79 | the stored bytes when they came from this source, else a build |
| Keystore.ReusedExactly | internal/controller/hash.go:71-79 | stored bytes exactly when all three are there and the Secret carries this source's hash, which is not empty |
| Keystore.BuiltOpens | internal/keystore/keystore.go:255-276 | a fresh build opens to the entries of its inputs under a password that is not empty |
| Conditions.AppendOrReplace | internal/controller/conditions.go:82-90 | the first condition of the type is overwritten in place, or the new one appended |
| Conditions.ReplacedFinds | internal/controller/conditions.go:82-90 | the new condition is found, every other type keeps its own, a second time changes nothing |
| Conditions.ReplacedOnePerType | internal/controller/conditions.go:82-90 | one condition per type stays one condition per type |
| SecretStore.WriteRefinesOverwrite | internal/controller/issuer.go:399-428 | from any store, the skip-if-unchanged write leaves what the unconditional write leaves: type, data, every desired annotation, but for one desired to be empty, which a skip leaves absent exactly where it was absent; all other Secrets untouched |
| SecretStore.WriteExactly | internal/controller/issuer.go:399-428 | what one write does for every store and every failing call: skip, create, patch or fail, and the Secret it leaves |
| SecretStore.EmptyStaysAbsent | internal/controller/issuer.go:542-546 | an annotation desired to be empty that a skip leaves absent |
| SecretStore.WriteShows | internal/controller/issuer.go:399-428 | the store changes exactly when a Secret is created or patched |
| SecretStore.MarkersShow | internal/controller/issuer.go:475-521 | the store changes exactly when a marker call patches |
| SecretStore.WrittenIsUpToDate | internal/controller/issuer.go:529-548 | a write that did not fail leaves nothing to do for the same write |
| SecretStore.OwnersRefineOverwrite | internal/controller/issuer.go:413-426 | the owners are those of the unconditional write unless the write is skipped, names an owner and finds others |
| SecretStore.SkipKeepsOwners | internal/controller/issuer.go:413-426 | a store where they are not |
| SecretStore.MarkProperties | internal/controller/issuer.go:475-498 | marking touches only the three markers of one Secret and leaves reason and message there |
| SecretStore.MarkReads | internal/controller/issuer.go:487-497 | reason, message and time of a mark; one that says the same already is left alone |
| SecretStore.ClearProperties | internal/controller/issuer.go:502-521 | clearing touches only the three markers and leaves none |
| SecretStore.TargetNamespaces | internal/controller/issuer.go:310-345 | for a kind ending in ClusterIssuer the names of the non-terminating namespaces that are on the Allow list where there is one, else not on the Deny list; for other kinds the own namespace; fails only when the list does |
| SecretStore.TargetsExactly | internal/controller/issuer.go:310-345 | the same of the targets of a run |
| SecretStore.SelectedInOrder | internal/controller/issuer.go:319-333 | in the order of the list, each wanted place once |
| SecretStore.SelectedNamesExact | internal/controller/issuer.go:298-334 | none twice where the list has none twice |
| SecretStore.FanOutAt | internal/controller/issuer.go:199-221 | each target ends as its own write alone would have left it; nothing else changes |
| SecretStore.FanOutUnderFailures | internal/controller/issuer.go:199-226 | for any failing targets: the others desired, the failing and the rest unchanged, the first failure reported |
| FanOutRuns.RunUnderFailures | internal/controller/certsync.go:180-216 | the same for the publishing part of a run |
| FanOutRuns.StepUnderFailures | internal/controller/certsync.go:139-216 | the same for a whole reconcile from any store, marks for a missing key store included; it ends SecretWriteFailed exactly when it gets to writing and a target fails |
| FanOutRuns.StepOwners | internal/controller/certsync.go:185-201 | a Secret that a run created or patched in the Certificate's own namespace has that Certificate for its one owner; one elsewhere has the owners it had, none where it was not there |
| FanOutRuns.StepTouches | internal/controller/certsync.go:139-216 | a reconcile touches no Secret but the one its Certificate names in its own namespace and those of that name in the targets, and no other Certificate's conditions |
| Controller.AssembleSync | internal/controller/certsync.go:112-153 | the Secret filled step by step is the assembled Secret of the model |
| Controller.AssembleManaged | internal/controller/issuer.go:118-150 | the same for the secret-manager driver |
| Controller.ExtractPayload | internal/controller/parse.go:21-44 | normalized fields, or the first missing one |
| Payload.ExtractReads | internal/controller/parse.go:21-52 | under the configured or the default names: which field is missing first, and what is made of a string, null or other value |
| Controller.VerifySecretData | internal/controller/verify.go:147-162 | none exactly if the first block of tls.crt parses, tls.key is empty or its first block is read by one of the three parsers, and keystore.jks is empty or opens with the stored password; else the first of the three that fails |
| Controller.SecretUpToDate | internal/controller/issuer.go:529-548 | the gates of the comparison, annotation by annotation in any order |
| Controller.Cluster.WriteSecret | internal/controller/issuer.go:399-428 | the new store and the outcome are those of the write function |
| Controller.Cluster.MarkSecretDrift | internal/controller/issuer.go:475-498 | the new store is that of the marking function |
| Controller.Cluster.ClearSecretDrift | internal/controller/issuer.go:502-521 | the new store is that of the clearing function |
| Controller.Cluster.MarkCertDrift | internal/controller/issuer.go:455-462 | Secret first, then the condition; an earlier error stops it |
| Controller.Cluster.ClearCertDrift | internal/controller/issuer.go:467-474 | the same for clearing |
| Controller.Cluster.WriteTargets | internal/controller/issuer.go:202-221 | the loop writes every target and remembers the first failure |
| Controller.Cluster.DeliverSecret | internal/controller/certsync.go:139-219 | the common part of both drivers does what the function of the model says |
| Controller.Cluster.SyncReconcile | internal/controller/certsync.go:80-220 | a CertSyncer run is the run of the model |
| Controller.Cluster.ManagerReconcile | internal/controller/issuer.go:63-249 | a secret-manager run is the run of the model |
| Controller.Cluster.Reconcile | internal/controller/issuer.go:63-249 | one reconcile is one step of the world |
| Runs.DeliverKeeps | internal/controller/certsync.go:112-219 | a run writes nothing but its template, and that only after verification |
| Runs.MarkersAllOrNone | internal/controller/issuer.go:475-521 | in every reachable state the three markers of a Secret are all there or all absent |
| Runs.OwnersNeverCross | internal/controller/issuer.go:204-217 | in every reachable state each owner reference names a Certificate of the Secret's own namespace |
| Runs.ForeignOwnersStay | internal/controller/issuer.go:424-426 | a run from another namespace leaves the owners of a Secret as they are |
| Verified.WrittenAreSelfDescribing | internal/controller/verify.go:141-162 | after any runs, every Secret they wrote carries the hash of its data, its first certificate parses, its key is absent or a key, its key store absent or opens with the stored password |
| Coherent.KeystoresCoherent | internal/controller/hash.go:63-79 | in every state CertSyncer reaches, a stored key store opens to the source its Secret is annotated with |
| Coherent.ManagerKeystoresCoherent | internal/controller/issuer.go:156-178 | the same in every state IssuerReconciler reaches, for what it builds from a payload |
| Coherent.MixedKeystoresCoherent | internal/controller/hash.go:63-79 | the same for any interleaving of both, as long as they agree on the payloads |
| MixedDrivers.PrintedPayloadsAgree | internal/controller/issuer.go:118-150 | on printed, distinct certificates they agree |
| MixedDrivers.ViewsAgreeExactly | internal/controller/issuer.go:118-150 | on any certificates that parse, with a usable key, they agree if and only if a leaf that comes again is followed by a last certificate that completion applies to, and completion adds the same with and without the repetitions |
| MixedDrivers.MixedExactly | internal/controller/hash.go:63-79 | a key store IssuerReconciler made of such a payload is what CertSyncer expects of it exactly then |
| MixedDrivers.RepeatedLeafAgrees | internal/controller/roots.go:51-70 | with a chain that holds the leaf once: exactly when a known root verifies its last certificate, which is not self-issued, and, should that be the leaf, adds what the one before would get |
| MixedDrivers.RepeatedLeafParts | internal/controller/roots.go:51-70 | they part on an accepted payload, a self-issued leaf that comes again as the chain |
| Coherent.ReuseIsRebuild | internal/controller/hash.go:63-79 | reused bytes open to what a fresh build opens to |
| Coherent.PasswordKeptWithoutChain | internal/keystore/keystore.go:26-48 | a rebuild beside an unchanged tls.crt and tls.key has the stored password when tls.crt is a single certificate, else the fresh draw |
| SecondReconcile.SecondReconcileQuiet | internal/controller/issuer.go:399-415 | the fan-out of the next reconcile of the same source writes nothing if and only if last-sync-time is the same and both runs have the same key store or none, whatever came of the first build |
| SecondReconcile.SecondReconcileUntouched | internal/controller/issuer.go:475-521 | no Secret is created or patched at all, markers included, if and only if besides, without a key store, there is no Secret to mark |
| SecondReconcile.SecondReconcileDecided | internal/controller/certsync.go:139-220 | both, decided by the source and the store before, where builds fail for the source's sake only |
| SecondReconcile.SecondReconcileWritesNothing | internal/controller/hash.go:63-79 | in the quiet case it ends synced, and it touches no Secret exactly if there is a key store or no Secret in the own namespace, whatever randomness it draws |
| SecondReconcile.SecondReconcileWrites | internal/controller/issuer.go:542-546 | in any other case the first target is patched, and every one where none is listed twice |
| SecondReconcile.SameInputs | internal/controller/certsync.go:112-137 | inputs that differ in time, draw and faults only are of the same source, and last-sync-time is the run's time unless the source overrules it |
| Inputs.ExcludedNamespaceRewrites | internal/controller/certsync.go:139-165 | an Allow list without the own namespace: the second run in the same second patches the target |
| Inputs.KeylessMarksAgain | internal/controller/certsync.go:157-159 | a source without a private key: the second run in the same second has a quiet fan-out and patches the Secret all the same |
| SecondReconcile.LaterSecondRewrites | internal/controller/issuer.go:542-546 | in any other second every target is patched |
| Endings.EndingSays | internal/controller/issuer.go:455-473 | a marked end leaves its reason on Certificate and Secret and Ready alone; a synced end leaves True and no marker; after an unmarked failure a missing key store stays on the Certificate, and on the Secret exactly when the fan-out had no reason to write it; a run that does nothing changes nothing |
| Endings.StepEnds | internal/controller/issuer.go:63-249 | every end of either driver and its reason, by the first failure met, in order |
| Endings.MarksCarryTime | internal/controller/issuer.go:475-498 | a new mark carries the time of the run |
| Endings.MarkCertUnderFaults | internal/controller/issuer.go:455-474 | a marker call that fails on the Secret leaves everything, one that fails on the status leaves the status |
| Endings.SyncedWithoutKeystore | internal/controller/issuer.go:467-521 | a synced run without a key store keeps the mark if and only if clearing it fails: on the Certificate, and on the Secret unless the fan-out had a reason to write it |
| Inputs.MarkOutlivesSecret | internal/controller/certsync.go:154-165 | a source without a key and a failing call after the write: the Certificate says KeystoreSkipped, the Secret nothing |
| Endings.RunEndingSays | internal/controller/issuer.go:243-248 | the same after any sequence of runs |
| Contents.SyncedSyncContents | internal/controller/certsync.go:112-137 | after a synced CertSyncer run each target holds bundle, key, hashes and annotations of its source, and what the source adds to the annotations elsewhere |
| Contents.SyncedFields | internal/controller/issuer.go:136-147 | beside the key store's the Secret has tls.crt and tls.key, and ca.crt exactly where the secret-manager driver has a chain |
| Contents.StoredKeystoreAgrees | internal/controller/certsync.go:112-171 | after any runs of CertSyncer, where a synced one leaves key stores, keystore.jks and keystore.p12 open with the stored password to exactly the certificates of the stored tls.crt and the stored key, when they all parse; the JKS key entry unless its alias clashes |
| Contents.SyncedManagerContents | internal/controller/issuer.go:118-150 | after a synced secret-manager run each target holds the payload's certificate and key, the completed chain as ca.crt, and the annotations cert-manager requires |
| Converter.ReadJks | cmd/jks2secret/main.go:295-345 | leaf, chain and key of a JKS, or no source when an entry does not parse |
| Converter.KeyedJksReads | cmd/jks2secret/main.go:295-345 | with a private key entry: its first certificate is the leaf, its key the key, the chain is the trusted certificates in alias order and then the rest of its own; no source if a certificate does not parse or the password does not open |
| Converter.TrustedJksReads | cmd/jks2secret/main.go:337-344 | without: leaf and chain are the trusted certificates in order, no key, keyless exactly if there is one |
| Converter.FromJksConserves | cmd/jks2secret/main.go:295-345 | leaf and chain are all certificates of the key store, as often as they are there |
| Converter.ReadP12 | cmd/jks2secret/main.go:251-290 | the loop over fingerprints takes out the leaf and nothing else |
| Converter.FromP12Conserves | cmd/jks2secret/main.go:251-290 | leaf and key are the file's, every other certificate is kept as often as it is there and the leaf not at all; keyless exactly without a key |
| Converter.UnionTruststore | cmd/jks2secret/main.go:111-131 | the loop over fingerprints adds exactly the missing truststore certificates |
| Converter.UnionChainExact | cmd/jks2secret/main.go:111-131 | the source chain first, then every truststore certificate but the leaf, nothing new twice |
| Converter.UnitedWith | cmd/jks2secret/main.go:111-131 | what is in the united chain, the truststore's first certificate included |
| Converter.UnionAppend | cmd/jks2secret/main.go:111-131 | the new ones in the order of the truststore |
| Converter.AssemblePayload | cmd/jks2secret/main.go:133-149 | leaf, chain and key in their fields, no key field text without a key |
| Converter.FpSetFromPEM | cmd/jks2secret/main.go:434-449 | the fingerprints of exactly the CERTIFICATE blocks |
| Converter.CertDersRead | cmd/jks2secret/main.go:434-449 | which certificates those are |
| Converter.SameSet | cmd/jks2secret/main.go:451-461 | equal sizes and one inclusion decide equality |
| Converter.VerifyPayload | cmd/jks2secret/main.go:365-420 | none, or the first check that fails |
| Converter.MismatchMeans | cmd/jks2secret/main.go:365-420 | which check each mismatch stands for, all earlier ones passing |
| Converter.AcceptanceMeans | cmd/jks2secret/main.go:358-420 | any accepted payload has the source's leaf, its chain as a set, every truststore CA and its key byte for byte |
| Converter.HonestPayloadVerifies | cmd/jks2secret/main.go:111-149 | the converter's own payload passes exactly when the leaf is in neither chain nor truststore and keyless means no key |
| Converter.ExtractUndoesConversion | internal/controller/parse.go:21-44 | leaf and key come back byte for byte, the chain without duplicates; a keyless payload is refused |
| Zip.ExtractFromZip | internal/tencentcert/ssl.go:44-85 | the gathered buckets, the first unreadable file, or a missing leaf or key |
| Zip.ClassifyReads | internal/tencentcert/ssl.go:51-79 | by the name in lower case: the five excluded suffixes, then chain or intermediate, then key, then leaf |
| Zip.ExcludedContributeNothing | internal/tencentcert/ssl.go:58-62 | a file of an excluded format changes no bucket |
| Zip.BucketsConserveBlocks | internal/tencentcert/ssl.go:50-99 | each bucket decodes to the blocks of its files in order, with or without final newlines |
| Zip.BucketsPartition | internal/tencentcert/ssl.go:51-79 | every block of a file that is not excluded lands in exactly one bucket |
| Zip.PrintedSettled | internal/tencentcert/ssl.go:87-93 | printed blocks are such files, with or without the last newline |
| Zip.SettledExact | internal/tencentcert/ssl.go:87-99 | a file keeps its blocks and those of whatever file comes next apart if and only if it leaves no open BEGIN line whose body could still become base64 |
| Zip.OpenFilesMix | internal/tencentcert/ssl.go:87-99 | two files without a block that make one together |
| Resync.SweepReconcilesEachOnce | internal/controller/resync.go:78-101 | over every interleaving at most eight in flight, each Certificate of the group secret-manager.cert-manager.io reconciled exactly once and no other, in boundedly many actions |
| Resync.SweepNeverStuck | internal/controller/resync.go:78-101 | until the sweep has returned something can happen |
| Resync.Drift | internal/controller/resync.go:78-101 | the launching loop reconciles exactly our Certificates, once each |
| ClientCache.Cache.GetOrCreate | internal/controller/clientcache.go:34-47 | hit, built and cached, or failed and unchanged |
| ClientCache.BuiltAtMostOnce | internal/controller/clientcache.go:9-47 | over every interleaving of calls each key is built at most once and every caller gets that value |
| ClientCache.CallsGoOn | internal/controller/clientcache.go:34-47 | in every reachable state with a call that has not returned, one can go on and comes closer to its return |
| ClientCache.FailureReleases | internal/controller/clientcache.go:34-47 | a failed build frees the mutex and leaves nothing else behind |
| ClientCache.NextConsistent | internal/controller/clientcache.go:34-47 | each action keeps the cache and its callers consistent; a failed build changes nothing |
| ClientCache.ClientShared | internal/controller/tencentcert/issuer.go:39-64 | two fetches share a client exactly when region and endpoint agree and both are ambient or have the same id and key |

## Left out

- Pem.Decode: RFC 1421 headers between BEGIN line and body are not modelled; RFC 7468 has none. Labels follow section 3 of RFC 7468, so a label with two hyphens in a row is no label.
- MixedDrivers.ViewsAgreeExactly: payloads of CERTIFICATE blocks that all parse; what the two drivers make of blocks under other labels, or of blocks that do not parse, is not compared.
- Converter.ReadJks: certificates are their DER; passwords and key decryption are one yes or no.
- Keystore.Lower: lower-casing of ASCII letters only, for aliases and for file names in an archive.
- Runs.Exec: a reconcile is one step; interleavings of the API calls of two reconciles, and edits by others between runs, are not part of it. WriteSecret alone is proved from any store, edited or not.
- Resource versions, garbage collection, immutable fields and the encoding of patches: a patch sets the new object.
- X.509 parsing, signature checks, SHA-256, private key formats, JKS and PKCS#12 bytes: parameters. keystore-go, go-pkcs12 and the Go standard library are not part of this model.
- JSON text: a payload is a map from names to strings, null or other raw text.
- Network calls, credential chains and the cloud SDKs: a source is an arbitrary triple or an error.
- Signing and deleting CertificateRequests, the finalizer update and the force-sync annotation: each is one outcome of the run's input.
- Logging, metrics, flags, API types, CRDs, RBAC and the demo: no logic to prove.
