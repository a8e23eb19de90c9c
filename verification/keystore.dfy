// internal/keystore/keystore.go and the reuse cache of internal/controller/hash.go.
module Keystore {
  import opened Common
  import opened Canonical
  import opened Pem
  import Base64
  import opened Library
  import opened Normalize
  import opened Chain
  import opened Objects

  /******* The key store formats *******/

  // A JKS without its creation times.
  datatype Entry = PrivateKeyEntry(key: Der, chain: seq<Der>) | TrustedEntry(cert: Der)

  type Entries = map<string, Entry>

  datatype P12 = P12(key: Der, leaf: Der, cas: seq<Der>)

  // The two codecs. Writing takes a seed besides the content and the password: the creation
  // time for JKS, the salt for PKCS#12.
  datatype Formats = Formats(
    jksStore: (Entries, string, nat) -> string,
    jksLoad: (string, string) -> Option<Entries>,
    p12Encode: (P12, string, nat) -> string,
    p12Decode: (string, string) -> Option<P12>)

  // What is written opens with its password, and is not empty.
  ghost predicate Readable(f: Formats) {
    && (forall e, pw, seed :: f.jksStore(e, pw, seed) != "" && f.jksLoad(f.jksStore(e, pw, seed), pw) == Some(e))
    && (forall c, pw, seed :: f.p12Encode(c, pw, seed) != "" && f.p12Decode(f.p12Encode(c, pw, seed), pw) == Some(c))
  }

  /******* parseChainDER *******/

  ghost predicate IsChainCert(lib: Crypto, b: Block) {
    b.kind == CERTIFICATE && ParseCert(lib, b.bytes).Some?
  }

  // The CERTIFICATE blocks that parse, in order.
  ghost function ChainCerts(lib: Crypto, bs: seq<Block>): seq<Block> {
    if bs == [] then []
    else (if IsChainCert(lib, bs[0]) then [bs[0]] else []) + ChainCerts(lib, bs[1..])
  }

  // Malformed blocks skipped, duplicates dropped; an error only if something was there and nothing is left.
  ghost function ChainDer(lib: Crypto, chainPEM: string): Option<seq<Der>> {
    var kept := Dedup(ChainCerts(lib, DecodeAll(chainPEM)));
    if chainPEM != "" && kept == [] then None else Some(Ders(kept))
  }

  function Ders(bs: seq<Block>): (ds: seq<Der>)
    ensures |ds| == |bs| && forall i :: 0 <= i < |bs| ==> ds[i] == bs[i].bytes
  {
    if bs == [] then [] else [bs[0].bytes] + Ders(bs[1..])
  }

  ghost predicate SeenDers(lib: Crypto, seen: set<string>, bs: seq<Block>) {
    forall d :: lib.fingerprint(d) in seen <==> HasDer(bs, d)
  }

  lemma NothingKept(lib: Crypto)
    ensures Dedup([]) == [] && Ders([]) == [] && SeenDers(lib, {}, [])
    ensures ChainDer(lib, "") == Some([])
  {
    DecodeEmpty();
  }

  lemma ChainDerStep(lib: Crypto, done: seq<Block>, b: Block, seen: set<string>)
    requires Injective(lib.fingerprint) && SeenDers(lib, seen, done)
    ensures
      var fp := lib.fingerprint(b.bytes);
      && (fp in seen ==> Dedup(done + [b]) == Dedup(done) && SeenDers(lib, seen, done + [b]))
      && (fp !in seen ==>
            Ders(Dedup(done + [b])) == Ders(Dedup(done)) + [b.bytes] && SeenDers(lib, seen + {fp}, done + [b]))
  {
    hide Dedup, Ders, HasDer;
    DedupStep(done, b);
    HasDerStep(done, b);
    DersAppend(Dedup(done), b);
  }

  lemma DersAppend(bs: seq<Block>, b: Block)
    ensures Ders(bs + [b]) == Ders(bs) + [b.bytes]
  {
    hide Ders;
    var l, r := Ders(bs + [b]), Ders(bs) + [b.bytes];
    assert forall i :: 0 <= i < |l| ==> l[i] == r[i];
  }

  // CERTIFICATE blocks that parse, each DER once; none only if the text is not empty and has no such block.
  lemma ChainDerHolds(lib: Crypto, chainPEM: string)
    ensures
      var r, bs := ChainDer(lib, chainPEM), DecodeAll(chainPEM);
      && (r.None? <==>
            chainPEM != "" && forall b :: b in bs ==> !(b.kind == "CERTIFICATE" && lib.parse(b.bytes).Some?))
      && (r.Some? ==> Distinct(r.value))
      && (r.Some? ==>
            forall d :: d in r.value <==>
              lib.parse(d).Some? && exists b :: b in bs && b.kind == "CERTIFICATE" && b.bytes == d)
  {
    hide DecodeAll, Dedup, Ders;
    var cs := ChainCerts(lib, DecodeAll(chainPEM));
    ChainCertsMembers(lib, DecodeAll(chainPEM));
    DedupProperties(cs);
    var ds := Ders(Dedup(cs));
    forall d ensures d in ds <==> exists b :: b in cs && b.bytes == d {
      if d in ds {
        var i :| 0 <= i < |ds| && ds[i] == d;
        assert Dedup(cs)[i] in cs;
      }
      if b :| b in cs && b.bytes == d {
        var i :| 0 <= i < |cs| && cs[i] == b;
        assert HasDer(cs, d);
        var j :| 0 <= j < |Dedup(cs)| && Dedup(cs)[j].bytes == d;
        assert ds[j] == d;
      }
    }
    NothingKept(lib);
    DecodeEmpty();
    if cs != [] {
      assert cs[0] in cs;
    }
  }

  lemma {:induction false} ChainCertsMembers(lib: Crypto, bs: seq<Block>)
    ensures forall b :: b in ChainCerts(lib, bs) <==>
      b in bs && b.kind == "CERTIFICATE" && lib.parse(b.bytes).Some?
  {
    if bs != [] {
      ChainCertsMembers(lib, bs[1..]);
      assert bs == [bs[0]] + bs[1..];
    }
  }

  // In the order of the text.
  lemma {:induction false} ChainCertsAppend(lib: Crypto, bs: seq<Block>, cs: seq<Block>)
    ensures ChainCerts(lib, bs + cs) == ChainCerts(lib, bs) + ChainCerts(lib, cs)
  {
    if bs == [] {
      assert bs + cs == cs;
    } else {
      assert (bs + cs)[1..] == bs[1..] + cs;
      ChainCertsAppend(lib, bs[1..], cs);
    }
  }

  method ParseChainDER(lib: Crypto, chainPEM: string) returns (r: Option<seq<Der>>)
    requires Injective(lib.fingerprint)
    ensures r == ChainDer(lib, chainPEM)
  {
    hide Decode, DecodeAll, Dedup, Encode, EncodeAll, SeenDers, Ders;
    if chainPEM == "" {
      NothingKept(lib);
      return Some([]);
    }
    NothingKept(lib);
    var out: seq<Der> := [];
    var seen: set<string> := {};
    var rest := chainPEM;
    ghost var all, done := ChainCerts(lib, DecodeAll(chainPEM)), [];
    while true
      invariant all == done + ChainCerts(lib, DecodeAll(rest))
      invariant out == Ders(Dedup(done))
      invariant SeenDers(lib, seen, done)
      decreases |rest|
    {
      DecodeAllStep(rest);
      var next := Decode(rest);
      if next.None? { break; }
      var block := next.value.0;
      rest := next.value.1;
      if block.kind != CERTIFICATE { continue; }
      var cert := ParseCert(lib, block.bytes);
      if cert.None? { continue; }
      ChainDerStep(lib, done, block, seen);
      done := done + [block];
      var fp := lib.fingerprint(cert.value.raw);
      if fp in seen { continue; }
      seen := seen + {fp};
      out := out + [cert.value.raw];
    }
    assert done + [] == done;
    return if |out| == 0 then None else Some(out);
  }

  /******* buildJKS and buildPKCS12 *******/

  const PRIVATE_KEY := "PRIVATE KEY"

  function AliasFor(leaf: CertInfo): string {
    if leaf.commonName != "" then leaf.commonName
    else if leaf.dnsNames != [] then leaf.dnsNames[0]
    else "leaf"
  }

  function LowerChar(c: char): char {
    if 'A' <= c <= 'Z' then (c as int + 32) as char else c
  }

  // Aliases are kept in lower case.
  function Lower(s: string): (t: string)
    ensures |t| == |s| && forall i :: 0 <= i < |s| ==> t[i] == LowerChar(s[i])
  {
    if s == "" then "" else [LowerChar(s[0])] + Lower(s[1..])
  }

  // By character codes: A to Z become a to z.
  lemma LowerReads(s: string, i: nat)
    requires i < |s|
    ensures Lower(s)[i] as int == if 65 <= s[i] as int <= 90 then s[i] as int + 32 else s[i] as int
  {
  }

  function ChainAlias(i: nat): string {
    "chain-" + Decimal(i)
  }

  // Trusted entries go in one after the other and overwrite whatever has their alias.
  function AddTrusted(m: Entries, certs: seq<Der>): Entries {
    if certs == [] then m
    else
      var n := |certs| - 1;
      AddTrusted(m, certs[..n])[Lower(ChainAlias(n)) := TrustedEntry(certs[n])]
  }

  ghost function JksEntries(lib: Crypto, certPEM: string, keyPEM: string, chainPEM: string): Option<Entries> {
    var leaf, key, certs := LeadingCert(lib, certPEM), First(keyPEM), ChainDer(lib, chainPEM);
    if leaf.None? || key.None? || key.value.kind != PRIVATE_KEY || certs.None? then None
    else
      var entry := PrivateKeyEntry(key.value.bytes, [leaf.value.raw] + certs.value);
      Some(AddTrusted(map[Lower(AliasFor(leaf.value.info)) := entry], certs.value))
  }

  method BuildJKS(lib: Crypto, certPEM: string, keyPEM: string, chainPEM: string) returns (r: Option<Entries>)
    requires Injective(lib.fingerprint)
    ensures r == JksEntries(lib, certPEM, keyPEM, chainPEM)
  {
    hide Decode, DecodeAll, ChainDer, Lower, ChainAlias;
    var leaf := LeadingCert(lib, certPEM);
    if leaf.None? { return None; }
    var key := First(keyPEM);
    if key.None? { return None; }
    if key.value.kind != PRIVATE_KEY { return None; }
    var certs := ParseChainDER(lib, chainPEM);
    if certs.None? { return None; }
    var chain: seq<Der> := [leaf.value.raw];
    for i := 0 to |certs.value|
      invariant chain == [leaf.value.raw] + certs.value[..i]
    {
      chain := chain + [certs.value[i]];
    }
    assert certs.value[..|certs.value|] == certs.value;
    var store := map[Lower(AliasFor(leaf.value.info)) := PrivateKeyEntry(key.value.bytes, chain)];
    ghost var first := store;
    for i := 0 to |certs.value|
      invariant store == AddTrusted(first, certs.value[..i])
    {
      assert certs.value[..i + 1][..i] == certs.value[..i];
      store := store[Lower(ChainAlias(i)) := TrustedEntry(certs.value[i])];
    }
    return Some(store);
  }

  ghost function P12Content(lib: Crypto, certPEM: string, keyPEM: string, chainPEM: string): Option<P12> {
    var leaf, key, certs := LeadingCert(lib, certPEM), First(keyPEM), ChainDer(lib, chainPEM);
    if leaf.None? || key.None? || !lib.pkcs8(key.value.bytes) || certs.None? then None
    else Some(P12(key.value.bytes, leaf.value.raw, certs.value))
  }

  method BuildPKCS12(lib: Crypto, certPEM: string, keyPEM: string, chainPEM: string) returns (r: Option<P12>)
    requires Injective(lib.fingerprint)
    ensures r == P12Content(lib, certPEM, keyPEM, chainPEM)
  {
    hide Decode, DecodeAll, ChainDer;
    var leaf := LeadingCert(lib, certPEM);
    if leaf.None? { return None; }
    var key := First(keyPEM);
    if key.None? || !lib.pkcs8(key.value.bytes) { return None; }
    var certs := ParseChainDER(lib, chainPEM);
    if certs.None? { return None; }
    return Some(P12(key.value.bytes, leaf.value.raw, certs.value));
  }

  /******* A key store agrees with the bundle it was built from *******/

  lemma {:induction false} ChainCertsAll(lib: Crypto, bs: seq<Block>)
    requires AllCertificates(bs) && AllParse(lib, bs)
    ensures ChainCerts(lib, bs) == bs
  {
    if bs != [] {
      assert forall i :: 0 <= i < |bs[1..]| ==> bs[1..][i] == bs[i + 1];
      ChainCertsAll(lib, bs[1..]);
      assert IsChainCert(lib, bs[0]) by { assert bs[0] in bs; }
    }
  }

  lemma ChainDerPrinted(lib: Crypto, bs: seq<Block>)
    requires AllCertificates(bs) && AllParse(lib, bs) && DistinctDers(bs)
    ensures ChainDer(lib, EncodeAll(bs)) == Some(Ders(bs))
  {
    hide DecodeAll, Encode, EncodeAll;
    CertificatesAll(bs);
    DecodeAllEncodeAll(bs);
    ChainCertsAll(lib, bs);
    DedupDistinct(bs);
    EncodeAllEmpty(bs);
  }

  lemma LowerSame(s: string)
    requires forall k :: 0 <= k < |s| ==> !('A' <= s[k] <= 'Z')
    ensures Lower(s) == s
  {
  }

  lemma ChainAliasLower(i: nat)
    ensures Lower(ChainAlias(i)) == ChainAlias(i)
  {
    hide Decimal, Lower;
    var prefix, digits := "chain-", Decimal(i);
    assert forall k :: 0 <= k < |prefix| ==> !('A' <= prefix[k] <= 'Z');
    assert forall k :: 0 <= k < |digits| ==> !('A' <= digits[k] <= 'Z');
    LowerSame(prefix + digits);
  }

  lemma ChainAliasInjective(i: nat, j: nat)
    requires ChainAlias(i) == ChainAlias(j)
    ensures i == j
  {
    assert Decimal(i) == ChainAlias(i)[6..] == ChainAlias(j)[6..] == Decimal(j);
    DecimalInjective(i, j);
  }

  ghost predicate IsChainAlias(a: string, n: nat) {
    exists i :: 0 <= i < n && a == ChainAlias(i)
  }

  // Which alias holds what once all trusted entries are in.
  lemma {:induction false} AddTrustedEntries(m: Entries, certs: seq<Der>)
    ensures
      var r := AddTrusted(m, certs);
      && (forall i :: 0 <= i < |certs| ==> ChainAlias(i) in r && r[ChainAlias(i)] == TrustedEntry(certs[i]))
      && (forall a :: a in r <==> a in m || IsChainAlias(a, |certs|))
      && (forall a :: a in m && !IsChainAlias(a, |certs|) ==> r[a] == m[a])
  {
    hide ChainAlias, Lower;
    if certs != [] {
      var n := |certs| - 1;
      ChainAliasLower(n);
      AddTrustedEntries(m, certs[..n]);
      forall i | 0 <= i < n ensures ChainAlias(i) != ChainAlias(n) {
        if ChainAlias(i) == ChainAlias(n) { ChainAliasInjective(i, n); }
      }
      forall a ensures IsChainAlias(a, |certs|) <==> IsChainAlias(a, n) || a == ChainAlias(n) {
      }
    }
  }

  lemma OneKeyAndTail(alias: string, entry: Entry, certs: seq<Der>)
    requires entry.PrivateKeyEntry?
    ensures
      var r := AddTrusted(map[alias := entry], certs);
      && (forall i :: 0 <= i < |certs| ==> ChainAlias(i) in r && r[ChainAlias(i)] == TrustedEntry(certs[i]))
      && (forall a :: a in r <==> a == alias || IsChainAlias(a, |certs|))
      && (r[alias] == entry <==> !IsChainAlias(alias, |certs|))
  {
    hide ChainAlias, AddTrusted;
    AddTrustedEntries(map[alias := entry], certs);
  }

  // What is built when the leaf and the chain read like this.
  lemma ContentsRead(lib: Crypto, certPEM: string, keyPEM: string, chainPEM: string, leaf: X509, certs: seq<Der>)
    requires LeadingCert(lib, certPEM) == Some(leaf) && ChainDer(lib, chainPEM) == Some(certs)
    ensures
      var entries, content := JksEntries(lib, certPEM, keyPEM, chainPEM), P12Content(lib, certPEM, keyPEM, chainPEM);
      var key, alias := First(keyPEM), Lower(AliasFor(leaf.info));
      && entries == (if key.None? || key.value.kind != PRIVATE_KEY then None else
           Some(AddTrusted(map[alias := PrivateKeyEntry(key.value.bytes, [leaf.raw] + certs)], certs)))
      && content
           == (if key.None? || !lib.pkcs8(key.value.bytes) then None else Some(P12(key.value.bytes, leaf.raw, certs)))
  {
    hide First, LeadingCert, ChainDer, AliasFor, Lower, AddTrusted;
  }

  // Nothing is built without a leading certificate that parses, a key block of the right kind and a readable chain.
  lemma ContentsMissing(lib: Crypto, certPEM: string, keyPEM: string, chainPEM: string)
    requires
      || First(certPEM).None? || lib.parse(First(certPEM).value.bytes).None? || ChainDer(lib, chainPEM).None?
      || First(keyPEM).None?
    ensures JksEntries(lib, certPEM, keyPEM, chainPEM).None? && P12Content(lib, certPEM, keyPEM, chainPEM).None?
  {
    hide First, ChainDer, AddTrusted, Lower, AliasFor;
  }

  lemma LeadingEncoded(lib: Crypto, b: Block)
    requires b.kind == CERTIFICATE
    ensures LeadingCert(lib, Encode(b)) == ParseCert(lib, b.bytes)
  {
    hide Encode, First, ValidLabel;
    CertificateLabel();
    FirstEncode(b);
  }

  // A printed bundle and its parts read as its certificates.
  lemma BundleReads(lib: Crypto, ds: seq<Block>)
    requires ds != [] && AllCertificates(ds) && AllParse(lib, ds) && DistinctDers(ds)
    ensures LeadingCert(lib, Encode(ds[0])) == ParseCert(lib, ds[0].bytes)
    ensures ParseCert(lib, ds[0].bytes).Some? && ParseCert(lib, ds[0].bytes).value.raw == ds[0].bytes
    ensures ChainDer(lib, EncodeAll(ds[1..])) == Some(Ders(ds[1..]))
    ensures SplitBundle(EncodeAll(ds)) == (Encode(ds[0]), EncodeAll(ds[1..]))
    ensures Ders(ds) == [ds[0].bytes] + Ders(ds[1..])
  {
    hide Encode, EncodeAll, LeadingCert, ChainDer, SplitBundle;
    var tail := ds[1..];
    assert ds == [ds[0]] + tail;
    LeadingEncoded(lib, ds[0]);
    assert AllCertificates(tail) && AllParse(lib, tail) && DistinctDers(tail) by {
      assert forall i :: 0 <= i < |tail| ==> tail[i] == ds[i + 1];
    }
    ChainDerPrinted(lib, tail);
    SplitPrinted(ds[0], tail);
  }

  // The private key entry carries all of a bundle, the trusted entries carry exactly its tail, and there is
  // nothing else — unless the leaf's alias is one of chain-0 … chain-(n-1), which loses exactly the key entry.
  ghost predicate EntriesAgree(lib: Crypto, ds: seq<Block>, keyPEM: string, entries: Entries)
    requires ds != [] && AllParse(lib, ds)
  {
    var info := ParseCert(lib, ds[0].bytes).value.info;
    var alias := Lower(if info.commonName != "" then info.commonName
                       else if info.dnsNames != [] then info.dnsNames[0] else "leaf");
    && (forall i :: 0 <= i < |ds| - 1 ==>
          ChainAlias(i) in entries && entries[ChainAlias(i)] == TrustedEntry(ds[i + 1].bytes))
    && (forall a :: a in entries <==> a == alias || IsChainAlias(a, |ds| - 1))
    && First(keyPEM).Some?
    && (entries[alias] == PrivateKeyEntry(First(keyPEM).value.bytes, Ders(ds)) <==> !IsChainAlias(alias, |ds| - 1))
  }

  // So it is with a key store built from a bundle of distinct certificates that all parse.
  lemma KeystoreAgreesWithBundle(lib: Crypto, ds: seq<Block>, keyPEM: string, entries: Entries)
    requires ds != [] && AllCertificates(ds) && AllParse(lib, ds) && DistinctDers(ds)
    requires
      var (leaf, chain) := SplitBundle(EncodeAll(ds));
      JksEntries(lib, leaf, keyPEM, chain) == Some(entries)
    ensures EntriesAgree(lib, ds, keyPEM, entries)
  {
    hide Encode, EncodeAll, First, LeadingCert, ChainDer, JksEntries, P12Content, ChainAlias, Lower,
      AddTrusted, SplitBundle, Ders, IsChainAlias, AllCertificates, AllParse, DistinctDers;
    BundleReads(lib, ds);
    var leaf, tail := ParseCert(lib, ds[0].bytes).value, ds[1..];
    ContentsRead(lib, Encode(ds[0]), keyPEM, EncodeAll(tail), leaf, Ders(tail));
    OneKeyAndTail(Lower(AliasFor(leaf.info)), PrivateKeyEntry(First(keyPEM).value.bytes, Ders(ds)), Ders(tail));
  }

  // The PKCS#12 content always carries all of the bundle.
  lemma P12AgreesWithBundle(lib: Crypto, ds: seq<Block>, keyPEM: string, content: P12)
    requires ds != [] && AllCertificates(ds) && AllParse(lib, ds) && DistinctDers(ds)
    requires
      var (leaf, chain) := SplitBundle(EncodeAll(ds));
      P12Content(lib, leaf, keyPEM, chain) == Some(content)
    ensures First(keyPEM).Some? && content == P12(First(keyPEM).value.bytes, ds[0].bytes, Ders(ds[1..]))
  {
    hide Encode, EncodeAll, First, LeadingCert, ChainDer, JksEntries, P12Content, SplitBundle, Ders, AllCertificates,
      AllParse, DistinctDers;
    BundleReads(lib, ds);
    ContentsRead(lib, Encode(ds[0]), keyPEM, EncodeAll(ds[1..]), ParseCert(lib, ds[0].bytes).value, Ders(ds[1..]));
  }

  // The alias clash at an input: a leaf named chain-0 with one certificate behind it. No entry holds the key.
  lemma AliasClash(lib: Crypto)
    requires lib.parse == ((d: Der) => Some(CertInfo("ca", "leaf", "chain-0", [], "", "")))
    ensures
      var bundle := EncodeAll([Block(CERTIFICATE, [0]), Block(CERTIFICATE, [1])]);
      var (leaf, chain) := SplitBundle(bundle);
      JksEntries(lib, leaf, Encode(Block(PRIVATE_KEY, [2])), chain) == Some(map["chain-0" := TrustedEntry([1])])
  {
    hide Encode, EncodeAll, First, LeadingCert, ChainDer, JksEntries, AddTrusted, SplitBundle, Ders, Lower, ValidLabel;
    var ds, key := [Block(CERTIFICATE, [0]), Block(CERTIFICATE, [1])], Encode(Block(PRIVATE_KEY, [2]));
    KeyLabel();
    FirstEncode(Block(PRIVATE_KEY, [2]));
    BundleReads(lib, ds);
    ContentsRead(lib, Encode(ds[0]), key, EncodeAll(ds[1..]), ParseCert(lib, [0]).value, Ders(ds[1..]));
    var entries := JksEntries(lib, Encode(ds[0]), key, EncodeAll(ds[1..])).value;
    KeystoreAgreesWithBundle(lib, ds, key, entries);
    ChainAliasLower(0);
    assert ChainAlias(0) == "chain-0";
    assert IsChainAlias("chain-0", 1);
    assert Lower(AliasFor(ParseCert(lib, ds[0].bytes).value.info)) == "chain-0";
    assert forall a :: a in entries <==> a == "chain-0";
    assert ChainAlias(0) in entries && entries[ChainAlias(0)] == TrustedEntry(ds[1].bytes);
    assert entries == map["chain-0" := TrustedEntry([1])];
  }

  lemma KeyLabel()
    ensures ValidLabel(PRIVATE_KEY)
  {
  }

  /******* Build *******/

  // The randomness and the failures of one build. `random` is what rand.Read delivers.
  datatype Chance = Chance(random: Option<Der>, created: nat, salt: nat, jksFails: bool, p12Fails: bool)

  datatype Outcome = Skipped | Failed | Ready(jks: string, p12: string, password: string)

  // The stored password was stored beside this very certificate and key.
  predicate KeepsPassword(certPEM: string, keyPEM: string, existing: Option<Secret>) {
    && existing.Some?
    && Lookup(existing.value.data, KEYSTORE_PASSWORD) != ""
    && Lookup(existing.value.data, TLS_CRT) == certPEM
    && Lookup(existing.value.data, TLS_KEY) == keyPEM
  }

  // Only a random source that delivers nothing gives an empty password.
  function ReuseOrGeneratePassword(certPEM: string, keyPEM: string, existing: Option<Secret>, chance: Chance)
    : (r: Option<string>)
    ensures r == Some("") ==> chance.random == Some([])
  {
    if KeepsPassword(certPEM, keyPEM, existing) then Some(existing.value.data[KEYSTORE_PASSWORD])
    else match chance.random case None => None case Some(raw) => Some(Base64.Encode(raw))
  }

  ghost function Built(lib: Crypto, f: Formats, certPEM: string, keyPEM: string, chainPEM: string,
                       existing: Option<Secret>, chance: Chance): Outcome {
    if keyPEM == "" then Skipped
    else
      var password := ReuseOrGeneratePassword(certPEM, keyPEM, existing, chance);
      var entries, content := JksEntries(lib, certPEM, keyPEM, chainPEM), P12Content(lib, certPEM, keyPEM, chainPEM);
      if password.None? || entries.None? || chance.jksFails || content.None? || chance.p12Fails then Failed
      else Ready(f.jksStore(entries.value, password.value, chance.created),
                 f.p12Encode(content.value, password.value, chance.salt),
                 password.value)
  }

  method Build(lib: Crypto, f: Formats, certPEM: string, keyPEM: string, chainPEM: string,
               existing: Option<Secret>, chance: Chance) returns (r: Outcome)
    requires Injective(lib.fingerprint)
    ensures r == Built(lib, f, certPEM, keyPEM, chainPEM, existing, chance)
  {
    hide JksEntries, P12Content;
    if keyPEM == "" { return Skipped; }
    var password := ReuseOrGeneratePassword(certPEM, keyPEM, existing, chance);
    if password.None? { return Failed; }
    var entries := BuildJKS(lib, certPEM, keyPEM, chainPEM);
    if entries.None? || chance.jksFails { return Failed; }
    var content := BuildPKCS12(lib, certPEM, keyPEM, chainPEM);
    if content.None? || chance.p12Fails { return Failed; }
    return Ready(f.jksStore(entries.value, password.value, chance.created),
                 f.p12Encode(content.value, password.value, chance.salt),
                 password.value);
  }

  // A password that does not depend on what the random source delivers is the stored one, and it is kept exactly
  // when it was stored beside this certificate and key.
  lemma PasswordStable(lib: Crypto, f: Formats, certPEM: string, keyPEM: string, chainPEM: string,
                       existing: Option<Secret>)
    requires keyPEM != ""
    requires JksEntries(lib, certPEM, keyPEM, chainPEM).Some? && P12Content(lib, certPEM, keyPEM, chainPEM).Some?
    ensures
      var data := if existing.Some? then existing.value.data else map[];
      var stored := Lookup(data, "keystore.password");
      var kept := stored != "" && Lookup(data, "tls.crt") == certPEM && Lookup(data, "tls.key") == keyPEM;
      && (kept ==>
            forall c ::
              var r := Built(lib, f, certPEM, keyPEM, chainPEM, existing, c);
              r.Ready? ==> r.password == stored)
      && (kept <==>
            forall c, c' ::
              var r := Built(lib, f, certPEM, keyPEM, chainPEM, existing, c);
              var r' := Built(lib, f, certPEM, keyPEM, chainPEM, existing, c');
              r.Ready? && r'.Ready? ==> r.password == r'.password)
  {
    hide JksEntries, P12Content, Base64.Encode;
    if !KeepsPassword(certPEM, keyPEM, existing) {
      var c, c' := Chance(Some([0]), 0, 0, false, false), Chance(Some([1]), 0, 0, false, false);
      Base64.DecodeEncode([0]);
      Base64.DecodeEncode([1]);
      assert Built(lib, f, certPEM, keyPEM, chainPEM, existing, c).password
        != Built(lib, f, certPEM, keyPEM, chainPEM, existing, c').password;
    }
  }

  // A build is skipped for want of a key alone; it delivers key stores exactly when a password can be had, both have
  // their content and neither writer fails, and then it delivers these, under one password.
  lemma BuiltExactly(lib: Crypto, f: Formats, certPEM: string, keyPEM: string, chainPEM: string,
                     existing: Option<Secret>, chance: Chance)
    ensures
      var r := Built(lib, f, certPEM, keyPEM, chainPEM, existing, chance);
      var data := if existing.Some? then existing.value.data else map[];
      var kept := Lookup(data, "keystore.password") != "" && Lookup(data, "tls.crt") == certPEM
        && Lookup(data, "tls.key") == keyPEM;
      && (r.Skipped? <==> keyPEM == "")
      && (r.Ready? <==>
            && keyPEM != "" && (kept || chance.random.Some?) && !chance.jksFails && !chance.p12Fails
            && JksEntries(lib, certPEM, keyPEM, chainPEM).Some? && P12Content(lib, certPEM, keyPEM, chainPEM).Some?)
      && (r.Ready? ==>
            && r.password == (if kept then Lookup(data, "keystore.password") else Base64.Encode(chance.random.value))
            && r.jks == f.jksStore(JksEntries(lib, certPEM, keyPEM, chainPEM).value, r.password, chance.created)
            && r.p12 == f.p12Encode(P12Content(lib, certPEM, keyPEM, chainPEM).value, r.password, chance.salt))
  {
    hide JksEntries, P12Content, Base64.Encode;
  }

  // The Secret says its key store came from this source.
  predicate Reusable(existing: Option<Secret>, sourceHash: string) {
    && existing.Some? && sourceHash != ""
    && Lookup(existing.value.annotations, SourceHashKey) == sourceHash
    && Lookup(existing.value.data, KEYSTORE_JKS) != ""
    && Lookup(existing.value.data, KEYSTORE_P12) != ""
    && Lookup(existing.value.data, KEYSTORE_PASSWORD) != ""
  }

  // The stored bytes verbatim when they came from this source, else a fresh build.
  ghost function ReusedOrBuilt(lib: Crypto, f: Formats, certPEM: string, keyPEM: string, chainPEM: string,
                               existing: Option<Secret>, sourceHash: string, chance: Chance): Outcome {
    if Reusable(existing, sourceHash) then
      var data := existing.value.data;
      Ready(data[KEYSTORE_JKS], data[KEYSTORE_P12], data[KEYSTORE_PASSWORD])
    else Built(lib, f, certPEM, keyPEM, chainPEM, existing, chance)
  }

  // The three stored fields come back when all are there and the Secret carries this source's hash, which is not empty;
  // otherwise there is a build.
  lemma ReusedExactly(lib: Crypto, f: Formats, certPEM: string, keyPEM: string, chainPEM: string,
                      existing: Option<Secret>, sourceHash: string, chance: Chance)
    ensures
      var (a, data) := if existing.Some? then (existing.value.annotations, existing.value.data) else (map[], map[]);
      var jks, p12 := Lookup(data, "keystore.jks"), Lookup(data, "keystore.p12");
      var password := Lookup(data, "keystore.password");
      ReusedOrBuilt(lib, f, certPEM, keyPEM, chainPEM, existing, sourceHash, chance) ==
        if sourceHash != "" && Lookup(a, SourceHashKey) == sourceHash && jks != "" && p12 != "" && password != ""
        then Ready(jks, p12, password)
        else Built(lib, f, certPEM, keyPEM, chainPEM, existing, chance)
  {
    hide Built;
  }

  method BuildKeystore(lib: Crypto, f: Formats, certPEM: string, keyPEM: string, chainPEM: string,
                       existing: Option<Secret>, sourceHash: string, chance: Chance) returns (r: Outcome)
    requires Injective(lib.fingerprint)
    ensures r == ReusedOrBuilt(lib, f, certPEM, keyPEM, chainPEM, existing, sourceHash, chance)
  {
    hide Built;
    if Reusable(existing, sourceHash) {
      var data := existing.value.data;
      return Ready(data[KEYSTORE_JKS], data[KEYSTORE_P12], data[KEYSTORE_PASSWORD]);
    }
    r := Build(lib, f, certPEM, keyPEM, chainPEM, existing, chance);
  }

  // What a Secret's three key store fields say, once opened with the stored password.
  ghost predicate Denotes(f: Formats, data: Data, entries: Entries, content: P12) {
    && f.jksLoad(Lookup(data, KEYSTORE_JKS), Lookup(data, KEYSTORE_PASSWORD)) == Some(entries)
    && f.p12Decode(Lookup(data, KEYSTORE_P12), Lookup(data, KEYSTORE_PASSWORD)) == Some(content)
  }

  // A fresh build opens to the entries of its inputs, under a password that is not empty
  // whenever the random source delivers something.
  lemma BuiltOpens(lib: Crypto, f: Formats, certPEM: string, keyPEM: string, chainPEM: string,
                   existing: Option<Secret>, chance: Chance)
    requires Readable(f)
    requires Built(lib, f, certPEM, keyPEM, chainPEM, existing, chance).Ready?
    ensures
      var r := Built(lib, f, certPEM, keyPEM, chainPEM, existing, chance);
      && JksEntries(lib, certPEM, keyPEM, chainPEM).Some? && P12Content(lib, certPEM, keyPEM, chainPEM).Some?
      && r.jks != "" && r.p12 != ""
      && f.jksLoad(r.jks, r.password) == JksEntries(lib, certPEM, keyPEM, chainPEM)
      && f.p12Decode(r.p12, r.password) == P12Content(lib, certPEM, keyPEM, chainPEM)
      && ((chance.random.Some? ==> chance.random.value != []) ==> r.password != "")
  {
    hide JksEntries, P12Content;
  }
}
