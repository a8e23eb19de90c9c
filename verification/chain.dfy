// internal/controller/verify.go, internal/controller/roots.go and the bundle splitter of
// internal/keystore/keystore.go.
module Chain {
  import opened Common
  import opened Pem
  import opened Library
  import opened Normalize

  const CERTIFICATE := "CERTIFICATE"

  /******* The certificates of a bundle *******/

  // The blocks that parse, in order, whatever their label says.
  function Parsed(lib: Crypto, bs: seq<Block>): (cs: seq<X509>)
    ensures |cs| <= |bs|
  {
    if bs == [] then []
    else
      match ParseCert(lib, bs[0].bytes)
      case None => Parsed(lib, bs[1..])
      case Some(c) => [c] + Parsed(lib, bs[1..])
  }

  lemma {:induction false} ParsedAppend(lib: Crypto, bs: seq<Block>, cs: seq<Block>)
    ensures Parsed(lib, bs + cs) == Parsed(lib, bs) + Parsed(lib, cs)
  {
    if bs == [] {
      assert bs + cs == cs;
    } else {
      assert (bs + cs)[1..] == bs[1..] + cs;
      ParsedAppend(lib, bs[1..], cs);
    }
  }

  lemma ParsedCons(lib: Crypto, b: Block, bs: seq<Block>)
    ensures Parsed(lib, [b] + bs)
      == (match ParseCert(lib, b.bytes) case None => [] case Some(c) => [c]) + Parsed(lib, bs)
  {
    hide ParseCert;
    assert ([b] + bs)[1..] == bs;
  }

  lemma ParsedNothing(lib: Crypto)
    ensures Parsed(lib, []) == []
  {
  }

  // The blocks labelled CERTIFICATE, in order, whether or not they parse.
  function Certificates(bs: seq<Block>): (cs: seq<Block>)
    ensures forall c :: c in cs ==> c in bs && c.kind == CERTIFICATE
  {
    if bs == [] then []
    else (if bs[0].kind == CERTIFICATE then [bs[0]] else []) + Certificates(bs[1..])
  }

  lemma {:induction false} CertificatesAppend(bs: seq<Block>, cs: seq<Block>)
    ensures Certificates(bs + cs) == Certificates(bs) + Certificates(cs)
  {
    if bs == [] {
      assert bs + cs == cs;
    } else {
      assert (bs + cs)[1..] == bs[1..] + cs;
      CertificatesAppend(bs[1..], cs);
    }
  }

  ghost predicate AllCertificates(bs: seq<Block>) {
    forall b :: b in bs ==> b.kind == CERTIFICATE
  }

  lemma {:induction false} CertificatesAll(bs: seq<Block>)
    requires AllCertificates(bs)
    ensures Certificates(bs) == bs && WellFormed(bs)
  {
    CertificateLabel();
    if bs != [] {
      CertificatesAll(bs[1..]);
    }
  }

  lemma CertificateLabel()
    ensures ValidLabel(CERTIFICATE)
  {
    hide ValidLabel;
    ValidWord(CERTIFICATE);
  }

  ghost predicate AllParse(lib: Crypto, bs: seq<Block>) {
    forall i :: 0 <= i < |bs| ==> ParseCert(lib, bs[i].bytes).Some?
  }

  lemma {:induction false} ParsedAll(lib: Crypto, bs: seq<Block>)
    requires AllParse(lib, bs)
    ensures |Parsed(lib, bs)| == |bs|
    ensures forall i :: 0 <= i < |bs| ==> Some(Parsed(lib, bs)[i]) == ParseCert(lib, bs[i].bytes)
  {
    if bs != [] {
      assert forall i :: 0 <= i < |bs[1..]| ==> bs[1..][i] == bs[i + 1];
      ParsedAll(lib, bs[1..]);
    }
  }

  /******* VerifyChain *******/

  datatype Verdict = Accepted | LeafInvalid | IntermediateInvalid(at: nat) | NoCertificates | BrokenLink(at: nat)

  function LeadingCert(lib: Crypto, pem: string): Option<X509> {
    match First(pem) case None => None case Some(b) => ParseCert(lib, b.bytes)
  }

  predicate LinkHolds(lib: Crypto, path: seq<X509>, i: nat)
    requires i + 1 < |path|
  {
    lib.signedBy(path[i], path[i + 1])
  }

  // Each certificate is signed by the next.
  ghost predicate SigningPath(lib: Crypto, path: seq<X509>) {
    forall i :: 0 <= i < |path| - 1 ==> LinkHolds(lib, path, i)
  }

  lemma SigningPathExtended(lib: Crypto, path: seq<X509>, c: X509)
    requires path != []
    ensures SigningPath(lib, path + [c]) <==> SigningPath(lib, path) && lib.signedBy(path[|path| - 1], c)
  {
    var longer := path + [c];
    assert forall i :: 0 <= i < |path| - 1 ==> LinkHolds(lib, longer, i) == LinkHolds(lib, path, i);
    assert LinkHolds(lib, longer, |path| - 1) == lib.signedBy(path[|path| - 1], c);
  }

  // A chain is optional; a chain that is there parses entirely and is a signing path from the leaf to its end.
  ghost predicate ChainAccepted(lib: Crypto, leafPEM: string, chainPEM: string) {
    chainPEM == "" ||
    (var leaf, bs := LeadingCert(lib, leafPEM), DecodeAll(chainPEM);
     leaf.Some? && bs != [] && AllParse(lib, bs) && SigningPath(lib, [leaf.value] + Parsed(lib, bs)))
  }

  lemma ParsedStep(lib: Crypto, done: seq<Block>, b: Block)
    requires AllParse(lib, done) && ParseCert(lib, b.bytes).Some?
    ensures AllParse(lib, done + [b])
    ensures Parsed(lib, done + [b]) == Parsed(lib, done) + [ParseCert(lib, b.bytes).value]
  {
    ParsedAppend(lib, done, [b]);
    ParsedOne(lib, b);
  }

  lemma ParsedOne(lib: Crypto, b: Block)
    ensures Parsed(lib, [b]) == match ParseCert(lib, b.bytes) case None => [] case Some(c) => [c]
  {
  }

  method ParseIntermediates(lib: Crypto, chainPEM: string) returns (certs: seq<X509>, bad: Option<nat>)
    ensures bad.None? <==> AllParse(lib, DecodeAll(chainPEM))
    ensures bad.None? ==> certs == Parsed(lib, DecodeAll(chainPEM))
    ensures bad.Some? ==>
      var bs := DecodeAll(chainPEM);
      bad.value < |bs| && AllParse(lib, bs[..bad.value]) && ParseCert(lib, bs[bad.value].bytes).None?
  {
    hide Decode, DecodeAll, Parsed;
    ParsedNothing(lib);
    certs, bad := [], None;
    var rest := chainPEM;
    ghost var all, done := DecodeAll(chainPEM), [];
    while true
      invariant all == done + DecodeAll(rest)
      invariant AllParse(lib, done) && certs == Parsed(lib, done) && |certs| == |done|
      decreases |rest|
    {
      DecodeAllStep(rest);
      var next := Decode(rest);
      if next.None? { break; }
      var block := next.value.0;
      assert all == done + [block] + DecodeAll(next.value.1);
      var cert := ParseCert(lib, block.bytes);
      if cert.None? {
        assert all[..|done|] == done && all[|done|] == block;
        return certs, Some(|certs|);
      }
      ParsedStep(lib, done, block);
      certs := certs + [cert.value];
      rest := next.value.1;
      done := done + [block];
    }
    assert done + [] == done;
  }

  // The first link that does not hold, counted from the leaf.
  method CheckLinks(lib: Crypto, leaf: X509, certs: seq<X509>) returns (bad: Option<nat>)
    ensures bad.None? <==> SigningPath(lib, [leaf] + certs)
    ensures bad.Some? ==>
      bad.value < |certs| && SigningPath(lib, ([leaf] + certs)[..bad.value + 1])
        && !LinkHolds(lib, [leaf] + certs, bad.value)
  {
    hide SigningPath;
    var cur := leaf;
    ghost var path := [leaf] + certs;
    assert SigningPath(lib, path[..1]) by { OneIsPath(lib, path[..1]); }
    for i := 0 to |certs|
      invariant cur == path[i]
      invariant SigningPath(lib, path[..i + 1])
    {
      SigningPathExtended(lib, path[..i + 1], certs[i]);
      assert path[..i + 2] == path[..i + 1] + [certs[i]];
      if !lib.signedBy(cur, certs[i]) {
        SigningPathCut(lib, path, i + 2);
        return Some(i);
      }
      cur := certs[i];
    }
    assert path[..|certs| + 1] == path;
    return None;
  }

  lemma OneIsPath(lib: Crypto, path: seq<X509>)
    requires |path| == 1
    ensures SigningPath(lib, path)
  {
  }

  lemma SigningPathCut(lib: Crypto, path: seq<X509>, n: nat)
    requires n <= |path|
    ensures SigningPath(lib, path) ==> SigningPath(lib, path[..n])
  {
    assert forall i :: 0 <= i < n - 1 ==> LinkHolds(lib, path[..n], i) == LinkHolds(lib, path, i);
  }

  // The first link that does not hold is reported.
  method VerifyChain(lib: Crypto, leafPEM: string, chainPEM: string) returns (v: Verdict)
    ensures v.Accepted? <==> ChainAccepted(lib, leafPEM, chainPEM)
    ensures v.LeafInvalid? <==> chainPEM != "" && LeadingCert(lib, leafPEM).None?
    ensures v.NoCertificates? <==> chainPEM != "" && LeadingCert(lib, leafPEM).Some? && DecodeAll(chainPEM) == []
    ensures v.IntermediateInvalid? ==>
      var bs := DecodeAll(chainPEM);
      v.at < |bs| && AllParse(lib, bs[..v.at]) && ParseCert(lib, bs[v.at].bytes).None?
    ensures v.BrokenLink? ==>
      && LeadingCert(lib, leafPEM).Some?
      && var path := [LeadingCert(lib, leafPEM).value] + Parsed(lib, DecodeAll(chainPEM));
        v.at + 1 < |path| && SigningPath(lib, path[..v.at + 1]) && !LinkHolds(lib, path, v.at)
  {
    hide Decode, DecodeAll, Parsed, SigningPath, AllParse, LeadingCert, LinkHolds;
    if chainPEM == "" { return Accepted; }
    var leaf := LeadingCert(lib, leafPEM);
    if leaf.None? { return LeafInvalid; }
    var certs, bad := ParseIntermediates(lib, chainPEM);
    if bad.Some? { return IntermediateInvalid(bad.value); }
    ParsedAll(lib, DecodeAll(chainPEM));
    if |certs| == 0 { return NoCertificates; }
    var broken := CheckLinks(lib, leaf.value, certs);
    if broken.Some? { return BrokenLink(broken.value); }
    return Accepted;
  }

  /******* CompleteChain *******/

  method LastCert(lib: Crypto, pem: string) returns (last: Option<X509>)
    ensures var cs := Parsed(lib, DecodeAll(pem)); last == if cs == [] then None else Some(cs[|cs| - 1])
  {
    hide Decode, DecodeAll, Parsed, ParseCert;
    ParsedNothing(lib);
    last := None;
    var rest := pem;
    ghost var all, done := Parsed(lib, DecodeAll(pem)), [];
    while true
      invariant all == done + Parsed(lib, DecodeAll(rest))
      invariant last == if done == [] then None else Some(done[|done| - 1])
      decreases |rest|
    {
      DecodeAllStep(rest);
      var next := Decode(rest);
      if next.None? { break; }
      ghost var later := Parsed(lib, DecodeAll(next.value.1));
      ParsedCons(lib, next.value.0, DecodeAll(next.value.1));
      var cert := ParseCert(lib, next.value.0.bytes);
      rest := next.value.1;
      if cert.None? {
        assert done + ([] + later) == done + later;
      } else {
        assert done + ([cert.value] + later) == done + [cert.value] + later;
        last := cert;
        done := done + [cert.value];
      }
    }
  }

  // The first known root whose first block parses and verifies the signature on `top`.
  function Signer(lib: Crypto, top: X509, roots: seq<string>): Option<string> {
    if roots == [] then None
    else
      match LeadingCert(lib, roots[0])
      case Some(root) => if lib.signedBy(top, root) then Some(roots[0]) else Signer(lib, top, roots[1..])
      case None => Signer(lib, top, roots[1..])
  }

  ghost function Completed(lib: Crypto, pem: string, roots: seq<string>): string {
    var cs := Parsed(lib, DecodeAll(pem));
    if cs == [] || SelfIssued(cs[|cs| - 1]) then pem
    else
      match Signer(lib, cs[|cs| - 1], roots)
      case None => pem
      case Some(root) => Normalized(pem + root)
  }

  method CompleteChain(lib: Crypto, pem: string, roots: seq<string>) returns (r: string)
    requires Injective(lib.fingerprint)
    ensures r == Completed(lib, pem, roots)
  {
    hide Decode, DecodeAll, LeadingCert, Normalized, Parsed;
    var top := LastCert(lib, pem);
    if top.None? || SelfIssued(top.value) { return pem; }
    for i := 0 to |roots|
      invariant Signer(lib, top.value, roots) == Signer(lib, top.value, roots[i..])
    {
      assert roots[i..][0] == roots[i] && roots[i..][1..] == roots[i + 1..];
      var root := LeadingCert(lib, roots[i]);
      if root.Some? && lib.signedBy(top.value, root.value) {
        r := NormalizePEM(lib.fingerprint, pem + roots[i]);
        return;
      }
    }
    assert roots[|roots|..] == [];
    return pem;
  }

  // Known roots are single printed CERTIFICATE blocks, as the one embedded constant is.
  ghost predicate PrintedRoots(roots: seq<string>) {
    forall r :: r in roots ==> exists b :: Encode(b) == r && b.kind == CERTIFICATE
  }

  ghost predicate SelfIssuedRoots(lib: Crypto, roots: seq<string>) {
    forall r :: r in roots && LeadingCert(lib, r).Some? ==> SelfIssued(LeadingCert(lib, r).value)
  }

  lemma {:induction false} SignerSigns(lib: Crypto, top: X509, roots: seq<string>)
    ensures
      var s := Signer(lib, top, roots);
      s.Some? ==>
        s.value in roots && LeadingCert(lib, s.value).Some? && lib.signedBy(top, LeadingCert(lib, s.value).value)
  {
    if roots != [] {
      SignerSigns(lib, top, roots[1..]);
    }
  }

  // On normalized text, completion either changes nothing or appends one known root that is new
  // to the bundle and signed what was its last certificate.
  lemma CompletionAppends(lib: Crypto, ds: seq<Block>, roots: seq<string>) returns (extra: seq<Block>)
    requires WellFormed(ds) && DistinctDers(ds) && PrintedRoots(roots)
    ensures Completed(lib, EncodeAll(ds), roots) == EncodeAll(ds + extra)
    ensures DistinctDers(ds + extra) && WellFormed(ds + extra) && |extra| <= 1 && AllCertificates(extra)
    ensures extra != [] ==>
      var cs := Parsed(lib, ds);
      && cs != [] && !SelfIssued(cs[|cs| - 1])
      && Encode(extra[0]) in roots
      && LeadingCert(lib, Encode(extra[0])) == ParseCert(lib, extra[0].bytes)
      && ParseCert(lib, extra[0].bytes).Some?
      && lib.signedBy(cs[|cs| - 1], ParseCert(lib, extra[0].bytes).value)
  {
    hide Decode, DecodeAll, Encode, EncodeAll, SplitGlue, Normalized, Dedup;
    extra := [];
    DecodeAllEncodeAll(ds);
    assert ds + [] == ds;
    var cs := Parsed(lib, ds);
    if cs != [] && !SelfIssued(cs[|cs| - 1]) && Signer(lib, cs[|cs| - 1], roots).Some? {
      var root := Signer(lib, cs[|cs| - 1], roots).value;
      SignerSigns(lib, cs[|cs| - 1], roots);
      var b :| Encode(b) == root && b.kind == CERTIFICATE;
      CertificateLabel();
      FirstEncode(b);
      EncodeAllAppend(ds, [b]);
      EncodeAllOne(b);
      NormalizedEncoded(ds + [b]);
      DedupStep(ds, b);
      DedupDistinct(ds);
      HasDerStep(ds, b);
      if !HasDer(ds, b.bytes) {
        extra := [b];
      }
    }
  }

  /******* SplitLeafAndChain *******/

  ghost function SplitBundle(bundle: string): (string, string) {
    var cs := Certificates(DecodeAll(bundle));
    if cs == [] then ("", "") else (Encode(cs[0]), EncodeAll(cs[1..]))
  }

  method SplitLeafAndChain(bundle: string) returns (leaf: string, chain: string)
    ensures (leaf, chain) == SplitBundle(bundle)
  {
    hide Decode, DecodeAll, Encode, EncodeAll;
    leaf, chain := "", "";
    var rest := bundle;
    var first := true;
    ghost var all, done := Certificates(DecodeAll(bundle)), [];
    while true
      invariant all == done + Certificates(DecodeAll(rest))
      invariant first <==> done == []
      invariant first ==> leaf == chain == ""
      invariant !first ==> leaf == Encode(done[0]) && chain == EncodeAll(done[1..])
      decreases |rest|
    {
      DecodeAllStep(rest);
      var next := Decode(rest);
      if next.None? { break; }
      var block := next.value.0;
      rest := next.value.1;
      if block.kind != CERTIFICATE { continue; }
      SplitStep(done, block);
      done := done + [block];
      var encoded := Encode(block);
      if first {
        leaf := encoded;
        first := false;
        continue;
      }
      chain := chain + encoded;
    }
    assert done + [] == done;
  }

  lemma SplitStep(done: seq<Block>, b: Block)
    ensures done == [] ==> (done + [b])[0] == b && EncodeAll((done + [b])[1..]) == ""
    ensures done != [] ==>
      (done + [b])[0] == done[0] && EncodeAll((done + [b])[1..]) == EncodeAll(done[1..]) + Encode(b)
  {
    if done != [] {
      assert (done + [b])[1..] == done[1..] + [b];
      EncodeAllAppend(done[1..], [b]);
      assert EncodeAll([b]) == Encode(b);
    }
  }

  lemma SplitPrinted(b: Block, cs: seq<Block>)
    requires AllCertificates([b] + cs)
    ensures SplitBundle(EncodeAll([b] + cs)) == (Encode(b), EncodeAll(cs))
  {
    CertificatesAll([b] + cs);
    DecodeAllEncodeAll([b] + cs);
    assert ([b] + cs)[1..] == cs;
  }

  /******* Completion keeps the signing path *******/

  // Printed and distinct certificates are normal already; completed, they split into the leaf and a chain that is
  // longer by what completion appends.
  lemma CompletedParts(lib: Crypto, leaf: Block, chain: seq<Block>, roots: seq<string>) returns (extra: seq<Block>)
    requires AllCertificates([leaf] + chain) && DistinctDers([leaf] + chain) && PrintedRoots(roots)
    ensures
      var text, tls := Encode(leaf) + EncodeAll(chain), EncodeAll([leaf] + (chain + extra));
      Normalized(text) == text && Completed(lib, text, roots) == tls
        && SplitBundle(tls) == (Encode(leaf), EncodeAll(chain + extra))
    ensures |extra| <= 1 && AllCertificates(extra)
    ensures extra != [] ==>
      var cs, root := Parsed(lib, [leaf] + chain), ParseCert(lib, extra[0].bytes);
      Encode(extra[0]) in roots && cs != [] && root.Some? && lib.signedBy(cs[|cs| - 1], root.value)
  {
    hide Encode, EncodeAll, Normalized, Dedup, Completed, SplitBundle, DistinctDers, LeadingCert, Parsed;
    var ds := [leaf] + chain;
    CertificatesAll(ds);
    EncodeAllCons(leaf, chain);
    NormalizedEncoded(ds);
    DedupDistinct(ds);
    extra := CompletionAppends(lib, ds, roots);
    assert ds + extra == [leaf] + (chain + extra);
    SplitPrinted(leaf, chain + extra);
  }

  // One printed certificate and no known root.
  lemma SingleLeaf(lib: Crypto, leaf: Block)
    requires leaf.kind == CERTIFICATE
    ensures Completed(lib, Normalized(Encode(leaf) + ""), []) == Encode(leaf)
    ensures SplitBundle(Encode(leaf)) == (Encode(leaf), "")
  {
    hide Encode, EncodeAll, Normalized, Completed, SplitBundle, Parsed;
    var extra := CompletedParts(lib, leaf, [], []) by { assert DistinctDers([leaf] + []); }
    EncodeAllEmpty([]);
    EncodeAllOne(leaf);
    assert extra == [] && [leaf] + ([] + extra) == [leaf] && [] + extra == [];
    assert EncodeAll([]) == "";
  }

  // Normalize, complete, split: the same leaf, the old chain with at most one known root behind it,
  // and a signing path to its end.
  lemma CompletionKeepsPath(lib: Crypto, leaf: Block, chain: seq<Block>, roots: seq<string>) returns (extra: seq<Block>)
    requires AllCertificates([leaf] + chain) && DistinctDers([leaf] + chain) && PrintedRoots(roots)
    requires ChainAccepted(lib, Encode(leaf), EncodeAll(chain))
    ensures
      var tls := Completed(lib, Normalized(Encode(leaf) + EncodeAll(chain)), roots);
      && SplitBundle(tls) == (Encode(leaf), EncodeAll(chain + extra))
      && tls == EncodeAll([leaf] + chain + extra)
    ensures ChainAccepted(lib, Encode(leaf), EncodeAll(chain + extra))
    ensures |extra| <= 1 && AllCertificates(extra) && forall b :: b in extra ==> Encode(b) in roots
  {
    hide Encode, EncodeAll, Normalized, Completed, SplitBundle, Parsed, BlocksAccepted, DistinctDers, ValidLabel;
    extra := CompletedParts(lib, leaf, chain, roots);
    assert [leaf] + chain + extra == [leaf] + (chain + extra);
    if extra == [] {
      assert chain + extra == chain;
    } else {
      assert extra == [extra[0]];
      CertificateLabel();
      PrintedAccepted(lib, leaf, chain);
      PathExtended(lib, leaf, chain, extra[0]);
      PrintedAccepted(lib, leaf, chain + extra);
    }
  }

  // The acceptance of printed bundles, said about their blocks.
  ghost predicate BlocksAccepted(lib: Crypto, leaf: Block, chain: seq<Block>) {
    chain == [] ||
    (var c := ParseCert(lib, leaf.bytes);
     c.Some? && AllParse(lib, chain) && SigningPath(lib, [c.value] + Parsed(lib, chain)))
  }

  lemma PrintedAccepted(lib: Crypto, leaf: Block, chain: seq<Block>)
    requires ValidLabel(leaf.kind) && WellFormed(chain)
    ensures ChainAccepted(lib, Encode(leaf), EncodeAll(chain)) <==> BlocksAccepted(lib, leaf, chain)
  {
    hide Decode, DecodeAll, Encode, EncodeAll, Parsed, AllParse, SigningPath;
    DecodeAllEncodeAll(chain);
    FirstEncode(leaf);
    EncodeAllEmpty(chain);
  }

  lemma PathExtended(lib: Crypto, leaf: Block, chain: seq<Block>, root: Block)
    requires BlocksAccepted(lib, leaf, chain)
    requires ParseCert(lib, root.bytes).Some?
    requires var cs := Parsed(lib, [leaf] + chain);
      cs != [] && lib.signedBy(cs[|cs| - 1], ParseCert(lib, root.bytes).value)
    ensures BlocksAccepted(lib, leaf, chain + [root])
  {
    hide Parsed;
    var r := ParseCert(lib, root.bytes).value;
    ParsedAppend(lib, [leaf], chain);
    ParsedAppend(lib, chain, [root]);
    ParsedOne(lib, leaf);
    ParsedOne(lib, root);
    if chain == [] {
      ParsedAll(lib, chain);
    }
    var path := Parsed(lib, [leaf]) + Parsed(lib, chain);
    assert path + [r] == [ParseCert(lib, leaf.bytes).value] + Parsed(lib, chain + [root]);
    SigningPathExtended(lib, path, r);
    if chain == [] {
      OneIsPath(lib, path);
    }
  }

  // With self-issued known roots a completed bundle is left alone.
  lemma CompletionIdempotent(lib: Crypto, ds: seq<Block>, roots: seq<string>)
    requires WellFormed(ds) && DistinctDers(ds) && PrintedRoots(roots) && SelfIssuedRoots(lib, roots)
    ensures var once := Completed(lib, EncodeAll(ds), roots); Completed(lib, once, roots) == once
  {
    hide Decode, DecodeAll, Encode, EncodeAll, SplitGlue, Normalized, Dedup;
    var extra := CompletionAppends(lib, ds, roots);
    if extra == [] {
      assert ds + extra == ds;
    } else {
      DecodeAllEncodeAll(ds + extra);
      ParsedAppend(lib, ds, extra);
      assert extra == [extra[0]];
      ParsedOne(lib, extra[0]);
    }
  }

  /******* ChainComposition *******/

  function Describe(leaf: bool, intermediate: bool, root: bool): string {
    Join((if leaf then ["leaf"] else []) + (if intermediate then ["intermediate"] else [])
      + (if root then ["root"] else []), "|")
  }

  // The first certificate that parses is the leaf; a later one is a root or an intermediate.
  ghost function Composition(lib: Crypto, pem: string): string {
    var cs := Parsed(lib, DecodeAll(pem));
    Describe(cs != [], HasLater(cs, false), HasLater(cs, true))
  }

  ghost predicate HasLater(cs: seq<X509>, selfIssued: bool) {
    exists i :: 0 < i < |cs| && SelfIssued(cs[i]) == selfIssued
  }

  lemma NoneLater()
    ensures !HasLater([], false) && !HasLater([], true)
  {
  }

  lemma HasLaterStep(cs: seq<X509>, c: X509, selfIssued: bool)
    ensures HasLater(cs + [c], selfIssued) <==> HasLater(cs, selfIssued) || (cs != [] && SelfIssued(c) == selfIssued)
  {
    var ds := cs + [c];
    assert ds[|cs|] == c;
    if HasLater(cs, selfIssued) {
      var i :| 0 < i < |cs| && SelfIssued(cs[i]) == selfIssued;
      assert ds[i] == cs[i];
    }
  }

  method ChainComposition(lib: Crypto, pem: string) returns (r: string)
    ensures r == Composition(lib, pem)
  {
    hide Decode, DecodeAll, Parsed, HasLater, Join;
    ParsedNothing(lib);
    NoneLater();
    var hasLeaf, hasIntermediate, hasRoot := false, false, false;
    var first := true;
    var rest := pem;
    ghost var all, done := Parsed(lib, DecodeAll(pem)), [];
    while true
      invariant all == done + Parsed(lib, DecodeAll(rest))
      invariant first <==> done == []
      invariant hasLeaf <==> done != []
      invariant hasIntermediate <==> HasLater(done, false)
      invariant hasRoot <==> HasLater(done, true)
      decreases |rest|
    {
      DecodeAllStep(rest);
      var next := Decode(rest);
      if next.None? { break; }
      ParsedCons(lib, next.value.0, DecodeAll(next.value.1));
      rest := next.value.1;
      var cert := ParseCert(lib, next.value.0.bytes);
      if cert.None? { continue; }
      HasLaterStep(done, cert.value, true);
      HasLaterStep(done, cert.value, false);
      done := done + [cert.value];
      if first {
        hasLeaf := true;
      } else if SelfIssued(cert.value) {
        hasRoot := true;
      } else {
        hasIntermediate := true;
      }
      first := false;
    }
    assert done + [] == done;
    var parts: seq<string> := [];
    if hasLeaf { parts := parts + ["leaf"]; }
    if hasIntermediate { parts := parts + ["intermediate"]; }
    if hasRoot { parts := parts + ["root"]; }
    assert parts == (if hasLeaf then ["leaf"] else []) + (if hasIntermediate then ["intermediate"] else [])
        + (if hasRoot then ["root"] else []);
    return Join(parts, "|");
  }

  // Canonical order, each part at most once, nothing for an empty bundle.
  lemma CompositionText(lib: Crypto, pem: string)
    ensures
      var cs := Parsed(lib, DecodeAll(pem));
      Composition(lib, pem) ==
        if cs == [] then ""
        else
          "leaf" + (if HasLater(cs, false) then "|" + "intermediate" else "")
                 + (if HasLater(cs, true) then "|" + "root" else "")
  {
    hide Decode, DecodeAll, Parsed, Join;
    var cs := Parsed(lib, DecodeAll(pem));
    JoinShort("leaf", "intermediate", "root");
    JoinShort("leaf", "root", "root");
    if cs == [] {
      NoneLater();
      var none: seq<string> := [];
      assert none + none + none == none;
    } else {
      assert ["leaf"] + [] + [] == ["leaf"];
      assert ["leaf"] + ["intermediate"] + [] == ["leaf", "intermediate"];
      assert ["leaf"] + [] + ["root"] == ["leaf", "root"];
      assert ["leaf"] + ["intermediate"] + ["root"] == ["leaf", "intermediate", "root"];
    }
  }

  lemma JoinShort(a: string, b: string, c: string)
    ensures Join([], "|") == "" && Join([a], "|") == a + "" + ""
    ensures Join([a, b], "|") == a + ("|" + b) + ""
    ensures Join([a, b], "|") == a + "" + ("|" + b)
    ensures Join([a, b, c], "|") == a + ("|" + b) + ("|" + c)
  {
    assert [a, b][1..] == [b] && [a, b, c][1..] == [b, c] && [b, c][1..] == [c];
    assert Join([b, c], "|") == b + "|" + c;
  }

  // A completed bundle that gained a certificate is described as holding a root.
  lemma CompletionReportsRoot(lib: Crypto, ds: seq<Block>, roots: seq<string>)
    requires WellFormed(ds) && DistinctDers(ds) && PrintedRoots(roots) && SelfIssuedRoots(lib, roots)
    requires Completed(lib, EncodeAll(ds), roots) != EncodeAll(ds)
    ensures exists intermediate ::
      Composition(lib, Completed(lib, EncodeAll(ds), roots)) == Describe(true, intermediate, true)
  {
    hide Decode, DecodeAll, Encode, EncodeAll, Completed, Parsed, HasLater, Describe;
    var extra := CompletionAppends(lib, ds, roots);
    assert ds + [] == ds;
    DecodeAllEncodeAll(ds + extra);
    ParsedAppend(lib, ds, extra);
    assert extra == [extra[0]];
    ParsedOne(lib, extra[0]);
    HasLaterStep(Parsed(lib, ds), ParseCert(lib, extra[0].bytes).value, true);
    var cs := Parsed(lib, ds + extra);
    assert Composition(lib, EncodeAll(ds + extra)) == Describe(true, HasLater(cs, false), true);
  }

  /******* In terms of the certificates alone *******/

  // A block that parses, as a certificate.
  function CertOf(lib: Crypto, b: Block): X509
    requires lib.parse(b.bytes).Some?
  {
    X509(b.bytes, lib.parse(b.bytes).value)
  }

  // Block n is the last that parses.
  ghost predicate IsTop(lib: Crypto, bs: seq<Block>, n: nat) {
    n < |bs| && lib.parse(bs[n].bytes).Some? && forall i :: n < i < |bs| ==> lib.parse(bs[i].bytes).None?
  }

  lemma {:induction false} ParsedNone(lib: Crypto, bs: seq<Block>)
    requires forall i :: 0 <= i < |bs| ==> lib.parse(bs[i].bytes).None?
    ensures Parsed(lib, bs) == []
  {
    if bs != [] {
      assert forall i :: 0 <= i < |bs[1..]| ==> bs[1..][i] == bs[i + 1];
      ParsedNone(lib, bs[1..]);
    }
  }

  lemma ParsedLast(lib: Crypto, bs: seq<Block>, n: nat)
    requires IsTop(lib, bs, n)
    ensures var cs := Parsed(lib, bs); cs != [] && cs[|cs| - 1] == CertOf(lib, bs[n])
  {
    hide Parsed;
    var front, back := bs[..n], bs[n + 1..];
    assert bs == front + [bs[n]] + back;
    assert forall i :: 0 <= i < |back| ==> back[i] == bs[n + 1 + i];
    ParsedNone(lib, back);
    ParsedAppend(lib, front + [bs[n]], back);
    ParsedAppend(lib, front, [bs[n]]);
    ParsedOne(lib, bs[n]);
  }

  // A text without a certificate that parses, or whose last one has its subject for its issuer, stays as it is.
  lemma CompletedUnchanged(lib: Crypto, pem: string, roots: seq<string>, n: nat)
    requires
      var bs := DecodeAll(pem);
      || (forall i :: 0 <= i < |bs| ==> lib.parse(bs[i].bytes).None?)
      || (IsTop(lib, bs, n) &&
            var top := lib.parse(bs[n].bytes).value; top.issuer == top.subject)
    ensures Completed(lib, pem, roots) == pem
  {
    hide DecodeAll, Parsed;
    if IsTop(lib, DecodeAll(pem), n) {
      ParsedLast(lib, DecodeAll(pem), n);
    } else {
      ParsedNone(lib, DecodeAll(pem));
    }
  }

  // The first block of the text parses and signed this certificate.
  predicate Verifies(lib: Crypto, top: X509, root: string) {
    var b := First(root);
    b.Some? && lib.parse(b.value.bytes).Some? && lib.signedBy(top, CertOf(lib, b.value))
  }

  lemma {:induction false} SignerIsFirst(lib: Crypto, top: X509, roots: seq<string>, k: nat)
    requires k <= |roots| && forall i :: 0 <= i < k ==> !Verifies(lib, top, roots[i])
    requires k < |roots| ==> Verifies(lib, top, roots[k])
    ensures Signer(lib, top, roots) == if k < |roots| then Some(roots[k]) else None
  {
    hide First;
    if k > 0 {
      assert forall i :: 0 <= i < k - 1 ==> roots[1..][i] == roots[i + 1];
      SignerIsFirst(lib, top, roots[1..], k - 1);
    }
  }

  // A distinct printed bundle whose last certificate that parses has another issuer than its subject gets the first
  // known root that verifies that certificate behind it, unless it holds the root already; without such a root it
  // stays as it is.
  lemma CompletedByFirst(lib: Crypto, ds: seq<Block>, roots: seq<string>, n: nat, k: nat, root: Block)
    requires WellFormed(ds) && DistinctDers(ds) && IsTop(lib, ds, n)
    requires var top := lib.parse(ds[n].bytes).value; top.issuer != top.subject
    requires k <= |roots| && forall i :: 0 <= i < k ==> !Verifies(lib, CertOf(lib, ds[n]), roots[i])
    requires k < |roots| ==>
      && roots[k] == Encode(root) && root.kind == "CERTIFICATE" && lib.parse(root.bytes).Some?
      && lib.signedBy(CertOf(lib, ds[n]), CertOf(lib, root))
    ensures Completed(lib, EncodeAll(ds), roots) ==
      if k < |roots| && (forall i :: 0 <= i < |ds| ==> ds[i].bytes != root.bytes) then EncodeAll(ds + [root])
      else EncodeAll(ds)
  {
    hide DecodeAll, Encode, EncodeAll, Parsed, First, Signer, Completed, DistinctDers;
    var top := CertOf(lib, ds[n]);
    DecodeAllEncodeAll(ds);
    ParsedLast(lib, ds, n);
    if k < |roots| {
      CertificateLabel();
      FirstEncode(root);
    }
    SignerIsFirst(lib, top, roots, k);
    CompletedWith(lib, ds, roots, top, root);
    assert HasDer(ds, root.bytes) <==> !(forall i :: 0 <= i < |ds| ==> ds[i].bytes != root.bytes);
  }

  lemma CompletedWith(lib: Crypto, ds: seq<Block>, roots: seq<string>, top: X509, root: Block)
    requires WellFormed(ds) && DistinctDers(ds) && !SelfIssued(top)
    requires var cs := Parsed(lib, ds); cs != [] && cs[|cs| - 1] == top
    ensures Signer(lib, top, roots).None? ==> Completed(lib, EncodeAll(ds), roots) == EncodeAll(ds)
    ensures Signer(lib, top, roots) == Some(Encode(root)) && root.kind == "CERTIFICATE" ==>
      Completed(lib, EncodeAll(ds), roots) == EncodeAll(if HasDer(ds, root.bytes) then ds else ds + [root])
  {
    hide DecodeAll, Encode, EncodeAll, Parsed, Signer, Normalized, Dedup, DistinctDers, HasDer, ValidLabel;
    DecodeAllEncodeAll(ds);
    if root.kind == "CERTIFICATE" {
      CertificateLabel();
      EncodeAllAppend(ds, [root]);
      EncodeAllOne(root);
      NormalizedEncoded(ds + [root]);
      DedupStep(ds, root);
      DedupDistinct(ds);
    }
  }

  // Of the certificates that parse, the first is the leaf; the text names an intermediate if and only if a later one
  // has another issuer than its subject, and a root if and only if a later one has its subject for its issuer.
  lemma CompositionNames(lib: Crypto, pem: string)
    ensures
      var cs := Parsed(lib, DecodeAll(pem));
      var intermediate := exists i :: 1 <= i < |cs| && cs[i].info.issuer != cs[i].info.subject;
      var root := exists i :: 1 <= i < |cs| && cs[i].info.issuer == cs[i].info.subject;
      Composition(lib, pem) ==
        if cs == [] then "" else if intermediate && root then "leaf|intermediate|root"
        else if intermediate then "leaf|intermediate" else if root then "leaf|root" else "leaf"
  {
    hide DecodeAll, Parsed, HasLater, Composition;
    CompositionText(lib, pem);
    LaterCertificates(Parsed(lib, DecodeAll(pem)));
    CompositionStrings();
  }

  lemma CompositionStrings()
    ensures "leaf" + ("|" + "intermediate") + ("|" + "root") == "leaf|intermediate|root"
    ensures "leaf" + ("|" + "intermediate") + "" == "leaf|intermediate"
    ensures "leaf" + "" + ("|" + "root") == "leaf|root"
    ensures "leaf" + "" + "" == "leaf"
  {
  }

  lemma LaterCertificates(cs: seq<X509>)
    ensures HasLater(cs, false) <==> exists i :: 1 <= i < |cs| && cs[i].info.issuer != cs[i].info.subject
    ensures HasLater(cs, true) <==> exists i :: 1 <= i < |cs| && cs[i].info.issuer == cs[i].info.subject
  {
    forall i | 0 < i < |cs| ensures SelfIssued(cs[i]) <==> cs[i].info.issuer == cs[i].info.subject {
    }
    if HasLater(cs, false) {
      var i :| 0 < i < |cs| && SelfIssued(cs[i]) == false;
      assert 1 <= i && cs[i].info.issuer != cs[i].info.subject;
    }
    if HasLater(cs, true) {
      var i :| 0 < i < |cs| && SelfIssued(cs[i]) == true;
      assert 1 <= i && cs[i].info.issuer == cs[i].info.subject;
    }
  }

  // A chain that is there is accepted if and only if the first block of the leaf and all of its own parse, and each
  // certificate is signed by the next, the leaf by the first of the chain.
  lemma ChainAcceptedExactly(lib: Crypto, leafPEM: string, chainPEM: string)
    ensures
      var leaf, bs := First(leafPEM), DecodeAll(chainPEM);
      ChainAccepted(lib, leafPEM, chainPEM) <==>
        || chainPEM == ""
        || (&& leaf.Some? && lib.parse(leaf.value.bytes).Some? && bs != []
            && (forall i :: 0 <= i < |bs| ==> lib.parse(bs[i].bytes).Some?)
            && lib.signedBy(CertOf(lib, leaf.value), CertOf(lib, bs[0]))
            && forall i :: 1 <= i < |bs| ==> lib.signedBy(CertOf(lib, bs[i - 1]), CertOf(lib, bs[i])))
  {
    hide Decode, DecodeAll, First, Parsed;
    var leaf, bs := First(leafPEM), DecodeAll(chainPEM);
    if leaf.Some? && lib.parse(leaf.value.bytes).Some? && bs != [] && AllParse(lib, bs) {
      PathOfBlocks(lib, CertOf(lib, leaf.value), bs);
    }
  }

  lemma PathOfBlocks(lib: Crypto, leaf: X509, bs: seq<Block>)
    requires AllParse(lib, bs) && bs != []
    ensures SigningPath(lib, [leaf] + Parsed(lib, bs)) <==>
      && lib.signedBy(leaf, CertOf(lib, bs[0]))
      && forall i :: 1 <= i < |bs| ==> lib.signedBy(CertOf(lib, bs[i - 1]), CertOf(lib, bs[i]))
  {
    hide Parsed;
    ParsedAll(lib, bs);
    var path := [leaf] + Parsed(lib, bs);
    assert path[0] == leaf && forall i :: 1 <= i < |path| ==> path[i] == CertOf(lib, bs[i - 1]);
    if SigningPath(lib, path) {
      assert LinkHolds(lib, path, 0);
      forall i | 1 <= i < |bs| ensures lib.signedBy(CertOf(lib, bs[i - 1]), CertOf(lib, bs[i])) {
        assert LinkHolds(lib, path, i);
      }
    }
  }
}
