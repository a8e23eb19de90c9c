// cmd/jks2secret/main.go: from a key store to the payload the controller reads, and the check of the result.
module Converter {
  import opened Common
  import opened Pem
  import opened Library
  import opened Normalize
  import opened Chain
  import opened Keystore
  import opened Payload

  /******* Loading a source *******/

  // What is kept of a key store: certificates are their DER; the leaf is not in the chain; no key is empty.
  datatype Source = Source(leaf: Option<Der>, chain: seq<Der>, key: Der, keyless: bool)

  function Trusted(entries: seq<Entry>): seq<Der> {
    if entries == [] then []
    else
      var n := |entries| - 1;
      Trusted(entries[..n]) + match entries[n] case TrustedEntry(cert) => [cert] case PrivateKeyEntry(_, _) => []
  }

  function LastKey(entries: seq<Entry>): (r: Option<Entry>)
    ensures r.Some? ==> r.value.PrivateKeyEntry?
  {
    if entries == [] then None
    else if entries[|entries| - 1].PrivateKeyEntry? then Some(entries[|entries| - 1])
    else LastKey(entries[..|entries| - 1])
  }

  ghost predicate ParseAll(lib: Crypto, ds: seq<Der>) {
    forall d :: d in ds ==> lib.parse(d).Some?
  }

  // The entries in the order the aliases are listed; `opens` says whether the key's password fits.
  ghost function FromJks(lib: Crypto, entries: seq<Entry>, opens: bool): Option<Source> {
    var trusted, key := Trusted(entries), LastKey(entries);
    if !ParseAll(lib, trusted) then None
    else if key.Some? then
      var certs := key.value.chain;
      if !opens || !ParseAll(lib, certs) then None
      else if certs == [] then Some(Source(None, trusted, key.value.key, false))
      else Some(Source(Some(certs[0]), trusted + certs[1..], key.value.key, false))
    else if trusted == [] then Some(Source(None, [], [], false))
    else Some(Source(Some(trusted[0]), trusted[1..], [], true))
  }

  method ReadJks(lib: Crypto, entries: seq<Entry>, opens: bool) returns (r: Option<Source>)
    ensures r == FromJks(lib, entries, opens)
  {
    var chain: seq<Der> := [];
    var keyed: Option<Entry> := None;
    for i := 0 to |entries|
      invariant chain == Trusted(entries[..i]) && ParseAll(lib, chain)
      invariant keyed == LastKey(entries[..i])
    {
      assert entries[..i + 1][..i] == entries[..i];
      TrustedPrefix(entries, i + 1);
      match entries[i] {
        case PrivateKeyEntry(_, _) => keyed := Some(entries[i]);
        case TrustedEntry(cert) =>
          if lib.parse(cert).None? {
            assert cert in Trusted(entries[..i + 1]);
            return None;
          }
          chain := chain + [cert];
      }
    }
    assert entries[..|entries|] == entries;
    if keyed.Some? {
      if !opens { return None; }
      var certs := keyed.value.chain;
      var trusted := chain;
      var leaf: Option<Der> := None;
      for i := 0 to |certs|
        invariant forall j :: 0 <= j < i ==> lib.parse(certs[j]).Some?
        invariant i == 0 ==> leaf.None? && chain == trusted
        invariant i > 0 ==> leaf == Some(certs[0]) && chain == trusted + certs[1..i]
      {
        if lib.parse(certs[i]).None? { return None; }
        if i == 0 {
          leaf := Some(certs[0]);
        } else {
          chain := chain + [certs[i]];
        }
      }
      if |certs| > 0 {
        assert certs[1..|certs|] == certs[1..];
      } else {
        assert certs == [];
      }
      return Some(Source(leaf, chain, keyed.value.key, false));
    } else if |chain| > 0 {
      return Some(Source(Some(chain[0]), chain[1..], [], true));
    }
    return Some(Source(None, [], [], false));
  }

  lemma {:induction false} TrustedPrefix(entries: seq<Entry>, n: nat)
    requires n <= |entries|
    ensures forall d :: d in Trusted(entries[..n]) ==> d in Trusted(entries)
    decreases |entries|
  {
    if n == |entries| {
      assert entries[..n] == entries;
    } else {
      assert entries[..|entries| - 1][..n] == entries[..n];
      TrustedPrefix(entries[..|entries| - 1], n);
    }
  }

  // No certificate of the key store gets lost or appears twice as often.
  lemma FromJksConserves(lib: Crypto, entries: seq<Entry>, opens: bool)
    requires FromJks(lib, entries, opens).Some? && FromJks(lib, entries, opens).value.leaf.Some?
    ensures
      var s := FromJks(lib, entries, opens).value;
      multiset([s.leaf.value] + s.chain) ==
        multiset(Trusted(entries)) + if LastKey(entries).Some? then multiset(LastKey(entries).value.chain)
          else multiset{}
  {
    hide Trusted, LastKey, ParseAll;
    var s := FromJks(lib, entries, opens).value;
    var trusted, key := Trusted(entries), LastKey(entries);
    if key.Some? {
      var leaf, rest := key.value.chain[0], key.value.chain[1..];
      assert key.value.chain == [leaf] + rest;
      assert multiset([leaf] + (trusted + rest)) == multiset(trusted) + multiset([leaf] + rest);
    } else {
      assert trusted == [trusted[0]] + trusted[1..];
    }
  }

  // The places of the trusted entries, in the order the aliases are listed.
  ghost predicate TrustedAt(entries: seq<Entry>, at: seq<nat>) {
    && (forall i, j :: 0 <= i < j < |at| ==> at[i] < at[j])
    && (forall k :: 0 <= k < |entries| ==> (k in at <==> entries[k].TrustedEntry?))
    && (forall k :: k in at ==> k < |entries|)
  }

  // Their certificates.
  ghost predicate AreCerts(entries: seq<Entry>, at: seq<nat>, certs: seq<Der>)
    requires TrustedAt(entries, at)
  {
    |certs| == |at| && forall i :: 0 <= i < |at| ==> at[i] in at && certs[i] == entries[at[i]].cert
  }

  lemma Members(at: seq<nat>)
    ensures forall i :: 0 <= i < |at| ==> at[i] in at
  {
  }

  // Without the last entry.
  lemma TrustedAtInit(entries: seq<Entry>, at: seq<nat>)
    requires entries != [] && TrustedAt(entries, at)
    ensures
      var n := |entries| - 1;
      if entries[n].TrustedEntry? then at != [] && at[|at| - 1] == n && TrustedAt(entries[..n], at[..|at| - 1])
      else TrustedAt(entries[..n], at)
  {
    var n := |entries| - 1;
    if entries[n].TrustedEntry? {
      var i :| 0 <= i < |at| && at[i] == n;
      assert at[|at| - 1] in at;
      var init := at[..|at| - 1];
      assert at == init + [n];
      assert forall k :: k in init ==> k in at && k < n;
    }
  }

  lemma {:induction false} TrustedReads(entries: seq<Entry>, at: seq<nat>, certs: seq<Der>)
    requires TrustedAt(entries, at) && AreCerts(entries, at, certs)
    ensures Trusted(entries) == certs
  {
    if entries == [] {
      Members(at);
    } else {
      var n := |entries| - 1;
      TrustedAtInit(entries, at);
      hide TrustedAt;
      if entries[n].TrustedEntry? {
        var m := |at| - 1;
        assert AreCerts(entries[..n], at[..m], certs[..m]) by { CertsInit(entries, at, certs); }
        TrustedReads(entries[..n], at[..m], certs[..m]);
        assert certs == certs[..m] + [entries[n].cert];
      } else {
        assert AreCerts(entries[..n], at, certs) by { CertsInit(entries, at, certs); }
        TrustedReads(entries[..n], at, certs);
        assert certs + [] == certs;
      }
    }
  }

  lemma CertsInit(entries: seq<Entry>, at: seq<nat>, certs: seq<Der>)
    requires entries != [] && TrustedAt(entries, at) && AreCerts(entries, at, certs)
    ensures
      var n, m := |entries| - 1, |at| - 1;
      if entries[n].TrustedEntry? then
        && at != [] && TrustedAt(entries[..n], at[..m]) && AreCerts(entries[..n], at[..m], certs[..m])
        && certs[m] == entries[n].cert
      else TrustedAt(entries[..n], at) && AreCerts(entries[..n], at, certs)
  {
    TrustedAtInit(entries, at);
  }

  lemma {:induction false} LastKeyAt(entries: seq<Entry>, n: nat)
    requires n < |entries| && entries[n].PrivateKeyEntry?
    requires forall k :: n < k < |entries| ==> entries[k].TrustedEntry?
    ensures LastKey(entries) == Some(entries[n])
  {
    if n < |entries| - 1 {
      LastKeyAt(entries[..|entries| - 1], n);
    }
  }

  lemma {:induction false} NoKey(entries: seq<Entry>)
    requires forall k :: 0 <= k < |entries| ==> entries[k].TrustedEntry?
    ensures LastKey(entries).None?
  {
    if entries != [] {
      NoKey(entries[..|entries| - 1]);
    }
  }

  // Where entry n is the last with a private key: the leaf is the first certificate of its chain, the key is its key,
  // the source is not keyless, and the chain is the trusted certificates in the order of the aliases and then the rest
  // of the entry's chain. There is no source when a certificate does not parse or the password does not open the key.
  lemma KeyedJksReads(lib: Crypto, entries: seq<Entry>, opens: bool, n: nat, at: seq<nat>, trusted: seq<Der>)
    requires n < |entries| && entries[n].PrivateKeyEntry?
    requires forall k :: n < k < |entries| ==> entries[k].TrustedEntry?
    requires TrustedAt(entries, at) && AreCerts(entries, at, trusted)
    ensures
      var chain, r := entries[n].chain, FromJks(lib, entries, opens);
      var parse := (forall d :: d in trusted ==> lib.parse(d).Some?) && (forall d :: d in chain ==> lib.parse(d).Some?);
      && (r.Some? <==> parse && opens)
      && (r.Some? ==>
            && r.value.leaf == (if chain == [] then None else Some(chain[0]))
            && r.value.chain == trusted + (if chain == [] then [] else chain[1..])
            && r.value.key == entries[n].key && !r.value.keyless)
  {
    hide Trusted, LastKey;
    LastKeyAt(entries, n);
    TrustedReads(entries, at, trusted);
  }

  // Without a private key: leaf and chain are the trusted certificates in order, and the source is keyless exactly when
  // there is one.
  lemma TrustedJksReads(lib: Crypto, entries: seq<Entry>, opens: bool, at: seq<nat>, trusted: seq<Der>)
    requires forall k :: 0 <= k < |entries| ==> entries[k].TrustedEntry?
    requires TrustedAt(entries, at) && AreCerts(entries, at, trusted)
    ensures
      var r := FromJks(lib, entries, opens);
      && (r.Some? <==> forall d :: d in trusted ==> lib.parse(d).Some?)
      && (r.Some? ==>
            && r.value.key == [] && (r.value.keyless <==> trusted != []) && (r.value.leaf.Some? <==> trusted != [])
            && (if r.value.leaf.Some? then [r.value.leaf.value] else []) + r.value.chain == trusted)
  {
    hide Trusted, LastKey;
    NoKey(entries);
    TrustedReads(entries, at, trusted);
  }

  // What DecodeChain or DecodeTrustStore delivers.
  datatype P12Source = Keyed(leaf: Der, cas: seq<Der>, key: Der) | TrustStore(certs: seq<Der>)

  // The leaf, where the file repeats it among the CAs, is taken out again.
  function WithoutLeaf(leaf: Der, cas: seq<Der>): seq<Der> {
    if cas == [] then [] else (if cas[0] == leaf then [] else [cas[0]]) + WithoutLeaf(leaf, cas[1..])
  }

  function FromP12(p: P12Source): Option<Source> {
    match p
    case Keyed(leaf, cas, key) => Some(Source(Some(leaf), WithoutLeaf(leaf, cas), key, key == []))
    case TrustStore(certs) => if certs == [] then None else Some(Source(Some(certs[0]), certs[1..], [], true))
  }

  lemma WithoutLeafFrom(leaf: Der, cas: seq<Der>, i: nat)
    requires i <= |cas|
    ensures i == |cas| ==> WithoutLeaf(leaf, cas[i..]) == []
    ensures i < |cas| ==>
      WithoutLeaf(leaf, cas[i..]) == (if cas[i] == leaf then [] else [cas[i]]) + WithoutLeaf(leaf, cas[i + 1..])
    ensures cas[0..] == cas
  {
    if i < |cas| {
      assert cas[i..][1..] == cas[i + 1..];
    }
  }

  // The loop compares fingerprints.
  method ReadP12(fp: Der -> string, p: P12Source) returns (r: Option<Source>)
    requires Injective(fp)
    ensures r == FromP12(p)
  {
    hide WithoutLeaf;
    match p
    case TrustStore(certs) =>
      if |certs| == 0 { return None; }
      return Some(Source(Some(certs[0]), certs[1..], [], true));
    case Keyed(leaf, cas, key) =>
      var chain: seq<Der> := [];
      WithoutLeafFrom(leaf, cas, 0);
      for i := 0 to |cas|
        invariant chain + WithoutLeaf(leaf, cas[i..]) == WithoutLeaf(leaf, cas)
      {
        WithoutLeafFrom(leaf, cas, i);
        if fp(cas[i]) == fp(leaf) { continue; }
        chain := chain + [cas[i]];
      }
      WithoutLeafFrom(leaf, cas, |cas|);
      assert chain + [] == chain;
      return Some(Source(Some(leaf), chain, key, key == []));
  }

  lemma {:induction false} WithoutLeafExact(leaf: Der, cas: seq<Der>)
    ensures forall d :: d in WithoutLeaf(leaf, cas) <==> d in cas && d != leaf
    ensures multiset(WithoutLeaf(leaf, cas)) == multiset(cas)[leaf := 0]
  {
    if cas != [] {
      WithoutLeafExact(leaf, cas[1..]);
      assert cas == [cas[0]] + cas[1..];
    }
  }

  // No certificate of the file gets lost or appears twice as often, but for the leaf, which the chain never holds; the
  // key is the file's, and the source is keyless exactly without one.
  lemma FromP12Conserves(p: P12Source)
    ensures FromP12(p).None? <==> p.TrustStore? && p.certs == []
    ensures FromP12(p).Some? ==>
      var s := FromP12(p).value;
      && s.leaf.Some?
      && (p.Keyed? ==>
            && s.leaf.value == p.leaf && multiset(s.chain) == multiset(p.cas)[p.leaf := 0]
            && s.key == p.key && (s.keyless <==> p.key == []))
      && (p.TrustStore? ==> [s.leaf.value] + s.chain == p.certs && s.key == [] && s.keyless)
  {
    if p.Keyed? {
      WithoutLeafExact(p.leaf, p.cas);
    }
  }

  // In the order of the file.
  lemma {:induction false} WithoutLeafAppend(leaf: Der, cas: seq<Der>, more: seq<Der>)
    ensures WithoutLeaf(leaf, cas + more) == WithoutLeaf(leaf, cas) + WithoutLeaf(leaf, more)
  {
    if cas == [] {
      assert cas + more == more;
    } else {
      assert (cas + more)[1..] == cas[1..] + more;
      WithoutLeafAppend(leaf, cas[1..], more);
    }
  }

  /******* The truststore union *******/

  // The chain, then every truststore certificate that is neither the leaf nor there already.
  function UnionChain(leaf: Der, chain: seq<Der>, trust: seq<Der>): seq<Der> {
    if trust == [] then chain
    else
      var n := |trust| - 1;
      var sofar := UnionChain(leaf, chain, trust[..n]);
      if trust[n] == leaf || trust[n] in sofar then sofar else sofar + [trust[n]]
  }

  lemma {:induction false} UnionChainExact(leaf: Der, chain: seq<Der>, trust: seq<Der>)
    ensures chain <= UnionChain(leaf, chain, trust)
    ensures forall d :: d in UnionChain(leaf, chain, trust) <==> d in chain || (d in trust && d != leaf)
    ensures Distinct(chain) ==> Distinct(UnionChain(leaf, chain, trust))
  {
    if trust != [] {
      var n := |trust| - 1;
      assert trust == trust[..n] + [trust[n]];
      UnionChainExact(leaf, chain, trust[..n]);
    }
  }

  function TrustCerts(ts: Source): seq<Der>
    requires ts.leaf.Some?
  {
    [ts.leaf.value] + ts.chain
  }

  // Source and truststore together: the source's chain, then what is new of the truststore, its first certificate
  // included, in its order.
  lemma {:induction false} UnionAppend(leaf: Der, chain: seq<Der>, trust: seq<Der>, more: seq<Der>)
    ensures UnionChain(leaf, chain, trust + more) == UnionChain(leaf, UnionChain(leaf, chain, trust), more)
    ensures forall d :: UnionChain(leaf, chain, [d]) == if d == leaf || d in chain then chain else chain + [d]
  {
    if more == [] {
      assert trust + more == trust;
    } else {
      var n := |more| - 1;
      assert (trust + more)[..|trust + more| - 1] == trust + more[..n];
      UnionAppend(leaf, chain, trust, more[..n]);
    }
    assert forall d: Der :: [d][..0] == [];
  }

  // Every certificate of the truststore that is not the leaf is in the united chain, and none else is new.
  lemma UnitedWith(src: Source, ts: Source, d: Der)
    requires src.leaf.Some? && ts.leaf.Some?
    ensures d in UnionChain(src.leaf.value, src.chain, TrustCerts(ts)) <==>
      d in src.chain || ((Some(d) == ts.leaf || d in ts.chain) && Some(d) != src.leaf)
  {
    UnionChainExact(src.leaf.value, src.chain, TrustCerts(ts));
  }

  ghost predicate Fingerprints(fp: Der -> string, seen: set<string>, ds: seq<Der>) {
    forall d :: fp(d) in seen <==> d in ds
  }

  lemma FingerprintsStep(fp: Der -> string, seen: set<string>, ds: seq<Der>, d: Der)
    requires Injective(fp) && Fingerprints(fp, seen, ds)
    ensures Fingerprints(fp, seen + {fp(d)}, ds + [d])
  {
  }

  lemma UnionStep(fp: Der -> string, seen: set<string>, leaf: Der, chain: seq<Der>, trust: seq<Der>, d: Der)
    requires Injective(fp) && Fingerprints(fp, seen, [leaf] + UnionChain(leaf, chain, trust))
    ensures
      var sofar := UnionChain(leaf, chain, trust);
      && (fp(d) in seen ==> UnionChain(leaf, chain, trust + [d]) == sofar)
      && (fp(d) !in seen ==>
            && UnionChain(leaf, chain, trust + [d]) == sofar + [d]
            && Fingerprints(fp, seen + {fp(d)}, [leaf] + (sofar + [d])))
  {
    var sofar := UnionChain(leaf, chain, trust);
    assert (trust + [d])[..|trust|] == trust;
    assert [leaf] + sofar + [d] == [leaf] + (sofar + [d]);
    FingerprintsStep(fp, seen, [leaf] + sofar, d);
  }

  lemma NothingUnited(fp: Der -> string, leaf: Der, chain: seq<Der>)
    ensures UnionChain(leaf, chain, []) == chain && Fingerprints(fp, {}, [])
  {
  }

  // The fingerprints of a list of certificates, one after the other.
  method Remember(fp: Der -> string, ds: seq<Der>) returns (seen: set<string>)
    requires Injective(fp)
    ensures Fingerprints(fp, seen, ds)
  {
    seen := {};
    for i := 0 to |ds|
      invariant Fingerprints(fp, seen, ds[..i])
    {
      FingerprintsStep(fp, seen, ds[..i], ds[i]);
      assert ds[..i + 1] == ds[..i] + [ds[i]];
      seen := seen + {fp(ds[i])};
    }
    assert ds[..|ds|] == ds;
  }

  method UnionTruststore(fp: Der -> string, src: Source, ts: Source) returns (r: Source, trustFPs: set<string>)
    requires src.leaf.Some? && ts.leaf.Some? && Injective(fp)
    ensures r == src.(chain := UnionChain(src.leaf.value, src.chain, TrustCerts(ts)))
    ensures Fingerprints(fp, trustFPs, TrustCerts(ts))
  {
    hide UnionChain, Fingerprints;
    var leaf, trust, chain := src.leaf.value, TrustCerts(ts), src.chain;
    NothingUnited(fp, leaf, chain);
    var seen := Remember(fp, [leaf] + src.chain);
    trustFPs := {};
    assert trust[..0] == [];
    for i := 0 to |trust|
      invariant chain == UnionChain(leaf, src.chain, trust[..i])
      invariant Fingerprints(fp, seen, [leaf] + chain)
      invariant Fingerprints(fp, trustFPs, trust[..i])
    {
      assert trust[..i + 1] == trust[..i] + [trust[i]];
      UnionStep(fp, seen, leaf, src.chain, trust[..i], trust[i]);
      FingerprintsStep(fp, trustFPs, trust[..i], trust[i]);
      var f := fp(trust[i]);
      trustFPs := trustFPs + {f};
      if f !in seen {
        chain := chain + [trust[i]];
        seen := seen + {f};
      }
    }
    assert trust[..|trust|] == trust;
    r := src.(chain := chain);
  }

  /******* The payload *******/

  datatype SmPayload = SmPayload(certificate: string, privateKey: string, certificateChain: string)

  function CertBlocks(ds: seq<Der>): (bs: seq<Block>)
    ensures |bs| == |ds| && forall i :: 0 <= i < |ds| ==> bs[i] == Block(CERTIFICATE, ds[i])
  {
    if ds == [] then [] else [Block(CERTIFICATE, ds[0])] + CertBlocks(ds[1..])
  }

  function PayloadOf(src: Source): SmPayload
    requires src.leaf.Some?
  {
    SmPayload(
      Encode(Block(CERTIFICATE, src.leaf.value)),
      if src.key == [] then "" else Encode(Block(PRIVATE_KEY, src.key)),
      EncodeAll(CertBlocks(src.chain)))
  }

  method AssemblePayload(src: Source) returns (p: SmPayload)
    requires src.leaf.Some?
    ensures p == PayloadOf(src)
  {
    hide Encode;
    var leafPEM := Encode(Block(CERTIFICATE, src.leaf.value));
    var chainPEM := "";
    ghost var blocks := CertBlocks(src.chain);
    for i := 0 to |src.chain|
      invariant chainPEM == EncodeAll(blocks[..i])
    {
      EncodeAllAppend(blocks[..i], [blocks[i]]);
      EncodeAllOne(blocks[i]);
      assert blocks[..i + 1] == blocks[..i] + [blocks[i]];
      chainPEM := chainPEM + Encode(Block(CERTIFICATE, src.chain[i]));
    }
    assert blocks[..|src.chain|] == blocks;
    p := SmPayload(leafPEM, "", chainPEM);
    if |src.key| > 0 {
      p := p.(privateKey := Encode(Block(PRIVATE_KEY, src.key)));
    }
  }

  /******* verifyPayload *******/

  datatype Mismatch =
    | NotACertificate | WrongLeaf | ChainDiffers | LeafInChain
    | UnexpectedKey | MissingKey | KeyNotPkcs8 | KeyDiffers | TrustMissing

  ghost function FingerprintSet(fp: Der -> string, ds: seq<Der>): set<string> {
    set i | 0 <= i < |ds| :: fp(ds[i])
  }

  // The DER of the CERTIFICATE blocks of a text.
  ghost function CertDers(pem: string): seq<Der> {
    Ders(Certificates(DecodeAll(pem)))
  }

  // The CERTIFICATE blocks and no others.
  lemma CertDersRead(pem: string, d: Der)
    ensures d in CertDers(pem) <==> exists b :: b in DecodeAll(pem) && b.kind == "CERTIFICATE" && b.bytes == d
  {
    hide DecodeAll, Ders;
    var bs := DecodeAll(pem);
    var cs := Certificates(bs);
    CertificatesMembers(bs);
    if d in CertDers(pem) {
      var i :| 0 <= i < |Ders(cs)| && Ders(cs)[i] == d;
      assert cs[i] in cs;
    }
    if b :| b in bs && b.kind == "CERTIFICATE" && b.bytes == d {
      var i :| 0 <= i < |cs| && cs[i] == b;
      assert Ders(cs)[i] == d;
    }
  }

  lemma {:induction false} CertificatesMembers(bs: seq<Block>)
    ensures forall b :: b in Certificates(bs) <==> b in bs && b.kind == "CERTIFICATE"
  {
    if bs != [] {
      CertificatesMembers(bs[1..]);
      assert bs == [bs[0]] + bs[1..];
    }
  }

  // The checks of verifyPayload, on fingerprints. `trust` is None without a truststore.
  ghost predicate PayloadVerified(fp: Der -> string, p: SmPayload, src: Source, trust: Option<set<string>>)
    requires src.leaf.Some?
  {
    var leaf, chain := First(p.certificate), FingerprintSet(fp, CertDers(p.certificateChain));
    && leaf.Some? && leaf.value.kind == CERTIFICATE && fp(leaf.value.bytes) == fp(src.leaf.value)
    && chain == FingerprintSet(fp, src.chain)
    && fp(src.leaf.value) !in chain
    && (if src.keyless then p.privateKey == ""
        else
          && p.privateKey != ""
          && First(p.privateKey).Some? && First(p.privateKey).value.kind == PRIVATE_KEY
          && First(p.privateKey).value.bytes == src.key)
    && (trust.Some? ==> trust.value <= chain)
  }

  method FpSetFromPEM(fp: Der -> string, pem: string) returns (m: set<string>)
    ensures m == FingerprintSet(fp, CertDers(pem))
  {
    hide Decode, DecodeAll, FingerprintSet, Ders;
    FingerprintSetEmpty(fp);
    m := {};
    var rest := pem;
    ghost var all, done: seq<Block> := Certificates(DecodeAll(pem)), [];
    while true
      invariant all == done + Certificates(DecodeAll(rest))
      invariant m == FingerprintSet(fp, Ders(done))
      decreases |rest|
    {
      DecodeAllStep(rest);
      var next := Decode(rest);
      if next.None? { break; }
      var blk := next.value.0;
      rest := next.value.1;
      if blk.kind != CERTIFICATE { continue; }
      FingerprintSetStep(fp, done, blk);
      done := done + [blk];
      m := m + {fp(blk.bytes)};
    }
    assert done + [] == done;
  }

  lemma FingerprintSetEmpty(fp: Der -> string)
    ensures FingerprintSet(fp, Ders([])) == {}
  {
  }

  lemma FingerprintSetStep(fp: Der -> string, bs: seq<Block>, b: Block)
    ensures FingerprintSet(fp, Ders(bs + [b])) == FingerprintSet(fp, Ders(bs)) + {fp(b.bytes)}
  {
    var ds, es := Ders(bs), Ders(bs + [b]);
    assert forall i :: 0 <= i < |bs| ==> es[i] == ds[i];
    assert es[|bs|] == b.bytes;
    forall x | x in FingerprintSet(fp, ds) ensures x in FingerprintSet(fp, es) {
      var i :| 0 <= i < |ds| && fp(ds[i]) == x;
      assert fp(es[i]) == x;
    }
  }

  method FpSet(fp: Der -> string, ds: seq<Der>) returns (m: set<string>)
    ensures m == FingerprintSet(fp, ds)
  {
    m := {};
    for i := 0 to |ds|
      invariant m == FingerprintSet(fp, ds[..i])
    {
      assert forall j :: 0 <= j < i ==> ds[..i + 1][j] == ds[..i][j];
      assert ds[..i + 1][i] == ds[i];
      m := m + {fp(ds[i])};
    }
    assert ds[..|ds|] == ds;
  }

  // Equal sizes and one inclusion make two finite sets equal.
  method SameSet(a: set<string>, b: set<string>) returns (r: bool)
    ensures r <==> a == b
  {
    if |a| != |b| { return false; }
    var left := a;
    while left != {}
      invariant left <= a && a - left <= b
      decreases left
    {
      var k :| k in left;
      if k !in b { return false; }
      left := left - {k};
    }
    SubsetOfSameSize(a, b);
    return true;
  }

  lemma SubsetOfSameSize(a: set<string>, b: set<string>)
    requires a <= b && |a| == |b|
    ensures a == b
  {
    assert b == a + (b - a);
    assert |b| == |a| + |b - a|;
    assert b - a == {};
  }

  // The first check that fails, in the order they are made.
  ghost function FirstMismatch(fp: Der -> string, p: SmPayload, src: Source,
                               trust: Option<set<string>>): Option<Mismatch>
    requires src.leaf.Some?
    ensures FirstMismatch(fp, p, src, trust).None? <==> PayloadVerified(fp, p, src, trust)
  {
    hide Decode, DecodeAll;
    var leaf, key, chain := First(p.certificate), First(p.privateKey), FingerprintSet(fp, CertDers(p.certificateChain));
    if leaf.None? || leaf.value.kind != CERTIFICATE then Some(NotACertificate)
    else if fp(leaf.value.bytes) != fp(src.leaf.value) then Some(WrongLeaf)
    else if chain != FingerprintSet(fp, src.chain) then Some(ChainDiffers)
    else if fp(src.leaf.value) in chain then Some(LeafInChain)
    else if src.keyless && p.privateKey != "" then Some(UnexpectedKey)
    else if !src.keyless && p.privateKey == "" then Some(MissingKey)
    else if !src.keyless && (key.None? || key.value.kind != PRIVATE_KEY) then Some(KeyNotPkcs8)
    else if !src.keyless && key.value.bytes != src.key then Some(KeyDiffers)
    else if trust.Some? && !(trust.value <= chain) then Some(TrustMissing)
    else None
  }

  method VerifyPayload(fp: Der -> string, p: SmPayload, src: Source,
                       trust: Option<set<string>>) returns (r: Option<Mismatch>)
    requires src.leaf.Some?
    ensures r == FirstMismatch(fp, p, src, trust)
  {
    hide Decode, DecodeAll, CertDers, FingerprintSet;
    var leafFP := fp(src.leaf.value);
    var blk := First(p.certificate);
    if blk.None? || blk.value.kind != CERTIFICATE { return Some(NotACertificate); }
    if fp(blk.value.bytes) != leafFP { return Some(WrongLeaf); }
    var chainFPs := FpSetFromPEM(fp, p.certificateChain);
    var chainSrcFPs := FpSet(fp, src.chain);
    var same := SameSet(chainFPs, chainSrcFPs);
    if !same { return Some(ChainDiffers); }
    if leafFP in chainFPs { return Some(LeafInChain); }
    if src.keyless {
      if p.privateKey != "" { return Some(UnexpectedKey); }
    } else {
      if p.privateKey == "" { return Some(MissingKey); }
      var key := First(p.privateKey);
      if key.None? || key.value.kind != PRIVATE_KEY { return Some(KeyNotPkcs8); }
      if key.value.bytes != src.key { return Some(KeyDiffers); }
    }
    if trust.Some? {
      var left := trust.value;
      while left != {}
        invariant left <= trust.value && trust.value - left <= chainFPs
        decreases left
      {
        var f :| f in left;
        if f !in chainFPs { return Some(TrustMissing); }
        left := left - {f};
      }
    }
    return None;
  }

  // A reported mismatch is there, and every check before it passes.
  lemma MismatchMeans(fp: Der -> string, p: SmPayload, src: Source, trust: Option<set<string>>)
    requires src.leaf.Some?
    ensures
      var r := FirstMismatch(fp, p, src, trust);
      var leaf, key := First(p.certificate), First(p.privateKey);
      var chain, theirs := FingerprintSet(fp, CertDers(p.certificateChain)), FingerprintSet(fp, src.chain);
      var certificate := leaf.Some? && leaf.value.kind == "CERTIFICATE";
      var same := certificate && fp(leaf.value.bytes) == fp(src.leaf.value);
      var apart := same && chain == theirs && fp(src.leaf.value) !in chain;
      var there := apart && (p.privateKey == "" <==> src.keyless);
      var pkcs8 := there && (src.keyless || (key.Some? && key.value.kind == "PRIVATE KEY"));
      var equal := pkcs8 && (src.keyless || key.value.bytes == src.key);
      && (r == Some(NotACertificate) <==> !certificate)
      && (r == Some(WrongLeaf) <==> certificate && !same)
      && (r == Some(ChainDiffers) <==> same && chain != theirs)
      && (r == Some(LeafInChain) <==> same && chain == theirs && fp(src.leaf.value) in chain)
      && (r == Some(UnexpectedKey) <==> apart && src.keyless && p.privateKey != "")
      && (r == Some(MissingKey) <==> apart && !src.keyless && p.privateKey == "")
      && (r == Some(KeyNotPkcs8) <==> there && !pkcs8)
      && (r == Some(KeyDiffers) <==> pkcs8 && !equal)
      && (r == Some(TrustMissing) <==> equal && trust.Some? && !(trust.value <= chain))
  {
    hide Decode, DecodeAll, First, CertDers, FingerprintSet;
  }

  // Whatever the payload: acceptance means the certificate is the leaf, the chain is the source's as a set and
  // does not hold the leaf, every truststore certificate is in it, and the key is the source's, byte for byte.
  lemma AcceptanceMeans(fp: Der -> string, p: SmPayload, src: Source, ts: Option<Source>, trust: Option<set<string>>)
    requires Injective(fp) && src.leaf.Some?
    requires ts.Some? <==> trust.Some?
    requires ts.Some? ==> ts.value.leaf.Some? && Fingerprints(fp, trust.value, TrustCerts(ts.value))
    requires PayloadVerified(fp, p, src, trust)
    ensures First(p.certificate) == Some(Block(CERTIFICATE, src.leaf.value))
    ensures forall d :: d in CertDers(p.certificateChain) <==> d in src.chain
    ensures src.leaf.value !in src.chain
    ensures ts.Some? ==>
      forall d :: Some(d) == ts.value.leaf || d in ts.value.chain ==> d in CertDers(p.certificateChain)
    ensures if src.keyless then p.privateKey == "" else First(p.privateKey) == Some(Block(PRIVATE_KEY, src.key))
  {
    hide Decode, DecodeAll, CertDers, FingerprintSet;
    FingerprintSetMember(fp, CertDers(p.certificateChain));
    FingerprintSetMember(fp, src.chain);
    forall d ensures d in CertDers(p.certificateChain) <==> d in src.chain {
      assert d in src.chain <==> fp(d) in FingerprintSet(fp, src.chain);
    }
  }

  lemma FingerprintSetMember(fp: Der -> string, ds: seq<Der>)
    requires Injective(fp)
    ensures forall d :: fp(d) in FingerprintSet(fp, ds) <==> d in ds
    ensures forall f :: f in FingerprintSet(fp, ds) ==> exists d :: d in ds && fp(d) == f
  {
  }

  /******* Honest payloads *******/

  // The source with the truststore unioned in, as the converter encodes and checks it.
  function Unioned(src: Source, ts: Option<Source>): Source
    requires src.leaf.Some? && (ts.Some? ==> ts.value.leaf.Some?)
  {
    if ts.None? then src else src.(chain := UnionChain(src.leaf.value, src.chain, TrustCerts(ts.value)))
  }

  lemma {:induction false} CertDersPrinted(ds: seq<Der>)
    ensures CertDers(EncodeAll(CertBlocks(ds))) == ds
  {
    hide DecodeAll, Encode, EncodeAll;
    var bs := CertBlocks(ds);
    CertificatesAll(bs);
    DecodeAllEncodeAll(bs);
    assert Ders(bs) == ds;
  }

  // The converter's own payload passes its check exactly when the leaf is neither in the chain nor in the
  // truststore and the source is called keyless exactly when it has no key.
  lemma HonestPayloadVerifies(fp: Der -> string, src: Source, ts: Option<Source>, trust: Option<set<string>>)
    requires Injective(fp) && src.leaf.Some?
    requires ts.Some? <==> trust.Some?
    requires ts.Some? ==> ts.value.leaf.Some? && trust.value == FingerprintSet(fp, TrustCerts(ts.value))
    ensures
      PayloadVerified(fp, PayloadOf(Unioned(src, ts)), Unioned(src, ts), trust) <==>
        && src.leaf.value !in src.chain
        && (ts.Some? ==> src.leaf != ts.value.leaf && src.leaf.value !in ts.value.chain)
        && (src.keyless <==> src.key == [])
  {
    hide Decode, DecodeAll, CertDers, FingerprintSet, Encode, EncodeAll, UnionChain;
    var u := Unioned(src, ts);
    var leaf := src.leaf.value;
    CertificateLabel();
    PrivateKeyLabel();
    FirstEncode(Block(CERTIFICATE, leaf));
    FirstEncode(Block(PRIVATE_KEY, u.key));
    EncodeNotEmpty(Block(PRIVATE_KEY, u.key));
    CertDersPrinted(u.chain);
    FingerprintSetMember(fp, u.chain);
    if ts.Some? {
      UnionChainExact(leaf, src.chain, TrustCerts(ts.value));
      FingerprintSetMember(fp, TrustCerts(ts.value));
      if leaf !in TrustCerts(ts.value) {
        forall f | f in trust.value ensures f in FingerprintSet(fp, u.chain) {
          var d :| d in TrustCerts(ts.value) && fp(d) == f;
          assert d in u.chain;
        }
      } else if leaf !in u.chain {
        assert fp(leaf) in trust.value && fp(leaf) !in FingerprintSet(fp, u.chain);
      }
    }
  }

  lemma PrivateKeyLabel()
    ensures ValidLabel(PRIVATE_KEY)
  {
    assert PRIVATE_KEY[7] == ' ' && PRIVATE_KEY[8] == 'K';
  }

  lemma EncodeNotEmpty(b: Block)
    ensures Encode(b) != ""
  {
  }

  /******* The controller reads back what the converter wrote *******/

  const DEFAULT_KEYS := PayloadKeys("", "", "")

  function DocumentOf(p: SmPayload): Payload.Document {
    map["certificate" := Quoted(p.certificate), "private_key" := Quoted(p.privateKey), 
        "certificate_chain" := Quoted(p.certificateChain)]
  }

  lemma PayloadNamesDiffer()
    ensures Distinct(["certificate", "private_key", "certificate_chain"])
  {
    assert "certificate"[0] != "private_key"[0] && |"certificate"| < |"certificate_chain"|
      && |"private_key"| < |"certificate_chain"|;
  }

  lemma DocumentFields(p: SmPayload)
    ensures
      var doc := DocumentOf(p);
      && DEFAULT_KEYS.CertificateOrDefault() in doc && doc[DEFAULT_KEYS.CertificateOrDefault()] == Quoted(p.certificate)
      && DEFAULT_KEYS.PrivateKeyOrDefault() in doc && doc[DEFAULT_KEYS.PrivateKeyOrDefault()] == Quoted(p.privateKey)
      && DEFAULT_KEYS.CertificateChainOrDefault() in doc
      && doc[DEFAULT_KEYS.CertificateChainOrDefault()] == Quoted(p.certificateChain)
  {
    PayloadNamesDiffer();
    var names := ["certificate", "private_key", "certificate_chain"];
    assert names[0] != names[1] && names[0] != names[2] && names[1] != names[2];
  }

  // A keyed payload that passed the check comes back whole: leaf and key byte for byte, the chain with its
  // duplicates removed, in order. A keyless one is refused for its missing key.
  lemma ExtractUndoesConversion(fp: Der -> string, src: Source, trust: Option<set<string>>)
    requires src.leaf.Some? && PayloadVerified(fp, PayloadOf(src), src, trust)
    ensures
      var p := PayloadOf(src);
      Extract(Some(DocumentOf(p)), DEFAULT_KEYS) ==
        if src.keyless then Failure(MissingField("private_key"))
        else Success(Extracted(p.certificate, p.privateKey, EncodeAll(Dedup(CertBlocks(src.chain)))))
  {
    hide Decode, DecodeAll, Encode, EncodeAll, Normalized, Dedup, FingerprintSet, CertDers;
    var p := PayloadOf(src);
    var leaf, key, chain := Block(CERTIFICATE, src.leaf.value), Block(PRIVATE_KEY, src.key), CertBlocks(src.chain);
    DocumentFields(p);
    CertificateLabel();
    PrivateKeyLabel();
    NormalizedOne(leaf);
    NormalizedOne(key);
    EncodeNotEmpty(leaf);
    CertificatesAll(chain);
    NormalizedEncoded(chain);
    EncodeAllEmpty(chain);
    NormalizedNothing();
  }

  lemma NormalizedOne(b: Block)
    requires ValidLabel(b.kind)
    ensures Normalized(Encode(b)) == Encode(b)
  {
    hide Decode, DecodeAll, Encode, Normalized;
    EncodeAllOne(b);
    NormalizedEncoded([b]);
    DedupDistinct([b]);
  }

  lemma NormalizedNothing()
    ensures EncodeAll(Dedup([])) == "" && EncodeAll([]) == ""
  {
  }
}
