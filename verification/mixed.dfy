// When the two drivers, which write the same source hash, build key stores of the same content.
module MixedDrivers {
  import opened Common
  import opened Pem
  import opened Library
  import opened Normalize
  import opened Chain
  import opened Objects
  import opened Keystore
  import opened Reconcile
  import opened Coherent

  /******* What becomes of a printed bundle *******/

  ghost function Top(lib: Crypto, bs: seq<Block>): X509
    requires bs != [] && AllParse(lib, bs)
  {
    ParseCert(lib, bs[|bs| - 1].bytes).value
  }

  // A known root verifies this certificate, which is not self-issued: completion normalizes.
  predicate Completes(lib: Crypto, top: X509, roots: seq<string>) {
    !SelfIssued(top) && Signer(lib, top, roots).Some?
  }

  // What completion adds to a bundle with these blocks.
  ghost function AddedRoot(lib: Crypto, ds: seq<Block>, top: X509, roots: seq<string>): seq<Der> {
    if !Completes(lib, top, roots) then []
    else
      match LeadingCert(lib, Signer(lib, top, roots).value)
      case None => []
      case Some(root) => if HasDer(ds, root.raw) then [] else [root.raw]
  }

  // Certificates that all parse, and something there.
  ghost predicate Certified(lib: Crypto, bs: seq<Block>) {
    bs != [] && AllCertificates(bs) && AllParse(lib, bs)
  }

  lemma CertifiedTail(lib: Crypto, bs: seq<Block>)
    requires Certified(lib, bs)
    ensures AllCertificates(bs[1..]) && AllParse(lib, bs[1..])
  {
    assert forall i :: 0 <= i < |bs[1..]| ==> bs[1..][i] == bs[i + 1];
  }

  lemma CertifiedDedup(lib: Crypto, bs: seq<Block>)
    requires Certified(lib, bs)
    ensures Certified(lib, Dedup(bs)) && DistinctDers(Dedup(bs)) && Dedup(bs)[0] == bs[0]
    ensures forall d :: HasDer(Dedup(bs), d) <==> HasDer(bs, d)
  {
    hide HasDer, DistinctDers, Dedup;
    DedupProperties(bs);
    var ds := Dedup(bs);
    forall i | 0 <= i < |ds| ensures ParseCert(lib, ds[i].bytes).Some? {
      assert ds[i] in bs;
      var j :| 0 <= j < |bs| && bs[j] == ds[i];
    }
  }

  lemma ParsedTop(lib: Crypto, bs: seq<Block>)
    requires Certified(lib, bs)
    ensures var cs := Parsed(lib, bs); cs != [] && cs[|cs| - 1] == Top(lib, bs)
  {
    ParsedAll(lib, bs);
  }

  lemma RootBlock(lib: Crypto, top: X509, roots: seq<string>) returns (b: Block)
    requires Completes(lib, top, roots) && PrintedRoots(roots)
    ensures Certified(lib, [b]) && Encode(b) == Signer(lib, top, roots).value
    ensures LeadingCert(lib, Signer(lib, top, roots).value) == ParseCert(lib, b.bytes)
  {
    hide Encode, LeadingCert;
    SignerSigns(lib, top, roots);
    b :| Encode(b) == Signer(lib, top, roots).value && b.kind == CERTIFICATE;
    LeadingEncoded(lib, b);
  }

  // Where completion applies, everything is normalized, the root included; else the text stays as it is.
  lemma CompletedExact(lib: Crypto, bs: seq<Block>, roots: seq<string>) returns (root: seq<Block>)
    requires Certified(lib, bs) && PrintedRoots(roots)
    ensures !Completes(lib, Top(lib, bs), roots) ==> root == [] && Completed(lib, EncodeAll(bs), roots) == EncodeAll(bs)
    ensures Completes(lib, Top(lib, bs), roots) ==>
      && |root| == 1 && Certified(lib, root)
      && LeadingCert(lib, Signer(lib, Top(lib, bs), roots).value) == ParseCert(lib, root[0].bytes)
      && Completed(lib, EncodeAll(bs), roots) == EncodeAll(Dedup(bs + root))
  {
    hide Encode, EncodeAll, DecodeAll, Normalized, Dedup, LeadingCert, Parsed, Signer, PrintedRoots;
    root := [];
    CertificatesAll(bs);
    DecodeAllEncodeAll(bs);
    ParsedTop(lib, bs);
    if Completes(lib, Top(lib, bs), roots) {
      var b := RootBlock(lib, Top(lib, bs), roots);
      root := [b];
      NormalizedMore(lib, bs, b);
    }
  }

  lemma NormalizedMore(lib: Crypto, bs: seq<Block>, b: Block)
    requires Certified(lib, bs) && Certified(lib, [b])
    ensures Normalized(EncodeAll(bs) + Encode(b)) == EncodeAll(Dedup(bs + [b]))
  {
    hide Encode, EncodeAll, Normalized, Dedup;
    CertifiedMore(lib, bs, [b]);
    EncodeAllAppend(bs, [b]);
    EncodeAllOne(b);
    NormalizedPrinted(lib, bs + [b]);
  }

  // The chain of a printed bundle, as the key stores read it.
  lemma TailRead(lib: Crypto, bs: seq<Block>)
    requires Certified(lib, bs)
    ensures SplitBundle(EncodeAll(bs)) == (Encode(bs[0]), EncodeAll(bs[1..]))
    ensures ChainDer(lib, EncodeAll(bs[1..])) == Some(Ders(Dedup(bs[1..])))
  {
    hide Encode, EncodeAll, DecodeAll, Dedup, SplitBundle, Ders;
    var tail := bs[1..];
    assert bs == [bs[0]] + tail;
    SplitPrinted(bs[0], tail);
    CertifiedTail(lib, bs);
    CertificatesAll(tail);
    DecodeAllEncodeAll(tail);
    ChainCertsAll(lib, tail);
    EncodeAllEmpty(tail);
    DedupProperties(tail);
    if tail == [] {
      NothingKept(lib);
    }
  }

  lemma DersSplit(a: seq<Block>, b: seq<Block>)
    ensures Ders(a + b) == Ders(a) + Ders(b)
  {
    hide Ders;
    assert forall i :: 0 <= i < |Ders(a + b)| ==> Ders(a + b)[i] == (Ders(a) + Ders(b))[i];
  }

  // What comes behind a block that does not come again is kept as if the block were not there.
  lemma {:induction false} DedupTail(head: Block, rest: seq<Block>)
    requires !HasDer(rest, head.bytes)
    ensures Dedup([head] + rest) == [head] + Dedup(rest)
  {
    hide HasDer, Dedup;
    if rest == [] {
      NoDers();
      DedupStep([], head);
      assert [head] + [] == [] + [head] == [head];
    } else {
      var init, last := rest[..|rest| - 1], rest[|rest| - 1];
      assert rest == init + [last];
      HasDerStep(init, last);
      DedupTail(head, init);
      DedupTailStep(head, init, last);
    }
  }

  lemma DedupTailStep(head: Block, init: seq<Block>, last: Block)
    requires Dedup([head] + init) == [head] + Dedup(init) && last.bytes != head.bytes
    ensures Dedup([head] + (init + [last])) == [head] + Dedup(init + [last])
  {
    hide HasDer, Dedup;
    assert [head] + (init + [last]) == [head] + init + [last];
    DedupStep([head] + init, last);
    DedupStep(init, last);
    HasDerCons(head, init);
    assert [head] + Dedup(init) + [last] == [head] + (Dedup(init) + [last]);
  }

  lemma NoDers()
    ensures Dedup([]) == [] && forall d :: !HasDer([], d)
  {
  }

  lemma HasDerCons(b: Block, bs: seq<Block>)
    ensures forall d :: HasDer([b] + bs, d) <==> d == b.bytes || HasDer(bs, d)
  {
    var all := [b] + bs;
    assert all[0] == b && forall i :: 0 <= i < |bs| ==> all[i + 1] == bs[i];
    forall d ensures HasDer(all, d) <==> d == b.bytes || HasDer(bs, d) {
      if HasDer(bs, d) {
        var i :| 0 <= i < |bs| && bs[i].bytes == d;
        assert all[i + 1].bytes == d;
      }
    }
  }

  lemma DersHold(bs: seq<Block>)
    ensures forall d :: d in Ders(bs) <==> HasDer(bs, d)
  {
    hide Ders;
    forall d ensures d in Ders(bs) <==> HasDer(bs, d) {
      if HasDer(bs, d) {
        var i :| 0 <= i < |bs| && bs[i].bytes == d;
        assert Ders(bs)[i] == d;
      }
    }
  }

  lemma DistinctHead(ds: seq<Block>)
    requires ds != [] && DistinctDers(ds)
    ensures DistinctDers(ds[1..]) && !HasDer(ds[1..], ds[0].bytes)
  {
    assert forall i :: 0 <= i < |ds[1..]| ==> ds[1..][i] == ds[i + 1];
  }

  // The chain behind the leaf once a bundle is completed, as the key stores read it.
  ghost function CompletedTail(lib: Crypto, bs: seq<Block>, roots: seq<string>): seq<Der>
    requires Certified(lib, bs)
  {
    CertifiedDedup(lib, bs);
    if Completes(lib, Top(lib, bs), roots) then Ders(Dedup(bs)[1..]) + AddedRoot(lib, Dedup(bs), Top(lib, bs), roots)
    else Ders(Dedup(bs[1..]))
  }

  lemma CompletedTailRead(lib: Crypto, bs: seq<Block>, roots: seq<string>)
    requires Certified(lib, bs) && PrintedRoots(roots)
    ensures
      var (leaf, chain) := SplitBundle(Completed(lib, EncodeAll(bs), roots));
      leaf == Encode(bs[0]) && ChainDer(lib, chain) == Some(CompletedTail(lib, bs, roots))
  {
    hide Encode, EncodeAll, Dedup, SplitBundle, Ders, ChainDer, Completed, Signer, LeadingCert, HasDer, DistinctDers;
    var root := CompletedExact(lib, bs, roots);
    if root == [] {
      TailRead(lib, bs);
    } else {
      assert root == [root[0]];
      var whole := Dedup(bs + root);
      CertifiedMore(lib, bs, root);
      CertifiedDedup(lib, bs + root);
      TailRead(lib, whole);
      DistinctHead(whole);
      DedupDistinct(whole[1..]);
      RootAdded(lib, bs, root[0]);
      CertifiedDedup(lib, bs);
    }
  }

  // The tail of a bundle without repetitions, and one more certificate unless it is there.
  lemma RootAdded(lib: Crypto, bs: seq<Block>, root: Block)
    requires Certified(lib, bs)
    ensures
      var whole, ds := Dedup(bs + [root]), Dedup(bs);
      && ds != [] && whole != []
      && Ders(whole[1..]) == Ders(ds[1..]) + (if HasDer(ds, root.bytes) then [] else [root.bytes])
      && whole[0] == ds[0] == bs[0]
  {
    hide Dedup, Ders, HasDer, DistinctDers;
    var whole, ds := Dedup(bs + [root]), Dedup(bs);
    CertifiedDedup(lib, bs);
    DedupStep(bs, root);
    if HasDer(bs, root.bytes) {
      assert Ders(ds[1..]) + [] == Ders(ds[1..]);
    } else {
      assert whole[1..] == ds[1..] + [root];
      DersSplit(ds[1..], [root]);
      DersOne(root);
    }
  }

  lemma DersOne(b: Block)
    ensures Ders([b]) == [b.bytes]
  {
  }

  lemma CertifiedMore(lib: Crypto, bs: seq<Block>, cs: seq<Block>)
    requires Certified(lib, bs) && Certified(lib, cs)
    ensures Certified(lib, bs + cs)
  {
  }

  // A bundle that keeps its duplicates and the bundle without them end with the same chain.
  ghost predicate SameCompletion(lib: Crypto, bs: seq<Block>, roots: seq<string>)
    requires Certified(lib, bs)
  {
    CertifiedDedup(lib, bs);
    var ds := Dedup(bs);
    && (HasDer(bs[1..], bs[0].bytes) ==> Completes(lib, Top(lib, bs), roots))
    && AddedRoot(lib, ds, Top(lib, bs), roots) == AddedRoot(lib, ds, Top(lib, ds), roots)
  }

  lemma DedupTwice(lib: Crypto, bs: seq<Block>, roots: seq<string>)
    requires Certified(lib, bs)
    ensures
      var ds := Dedup(bs);
      Certified(lib, ds) && CompletedTail(lib, ds, roots) == Ders(ds[1..]) + AddedRoot(lib, ds, Top(lib, ds), roots)
  {
    hide Dedup, Ders, HasDer, DistinctDers, Completes;
    CertifiedDedup(lib, bs);
    DedupDistinct(Dedup(bs));
    DistinctHead(Dedup(bs));
    DedupDistinct(Dedup(bs)[1..]);
    assert Ders(Dedup(bs)[1..]) + [] == Ders(Dedup(bs)[1..]);
  }

  lemma TailsAgree(lib: Crypto, bs: seq<Block>, roots: seq<string>)
    requires Certified(lib, bs)
    ensures Certified(lib, Dedup(bs))
    ensures CompletedTail(lib, bs, roots) == CompletedTail(lib, Dedup(bs), roots) <==> SameCompletion(lib, bs, roots)
  {
    hide Dedup, Ders, HasDer, DistinctDers, Completes;
    var ds, leaf := Dedup(bs), bs[0].bytes;
    CertifiedDedup(lib, bs);
    DedupTwice(lib, bs, roots);
    var sync := CompletedTail(lib, ds, roots);
    if Completes(lib, Top(lib, bs), roots) {
      Cancel(Ders(ds[1..]), AddedRoot(lib, ds, Top(lib, bs), roots), AddedRoot(lib, ds, Top(lib, ds), roots));
    } else if HasDer(bs[1..], leaf) {
      DedupProperties(bs[1..]);
      DersHold(Dedup(bs[1..]));
      DistinctHead(ds);
      DersHold(ds[1..]);
      HeadThere(ds);
      AddedIsNew(lib, ds, Top(lib, ds), roots);
      assert leaf in CompletedTail(lib, bs, roots) && leaf !in sync;
    } else {
      assert bs == [bs[0]] + bs[1..];
      DedupTail(bs[0], bs[1..]);
      Cancel(Ders(ds[1..]), [], AddedRoot(lib, ds, Top(lib, ds), roots));
      assert Ders(ds[1..]) + [] == Ders(ds[1..]);
    }
  }

  lemma Cancel(a: seq<Der>, b: seq<Der>, c: seq<Der>)
    ensures a + b == a + c <==> b == c
  {
    if a + b == a + c {
      assert b == (a + b)[|a|..] && c == (a + c)[|a|..];
    }
  }

  lemma HeadThere(ds: seq<Block>)
    requires ds != []
    ensures HasDer(ds, ds[0].bytes)
  {
  }

  lemma AddedIsNew(lib: Crypto, ds: seq<Block>, top: X509, roots: seq<string>)
    ensures forall d :: d in AddedRoot(lib, ds, top, roots) ==> !HasDer(ds, d)
  {
  }

  /******* The two drivers *******/

  // A private key of which both key stores can be made.
  ghost predicate Usable(lib: Crypto, key: string) {
    var b := First(key);
    b.Some? && b.value.kind == PRIVATE_KEY && lib.pkcs8(b.value.bytes)
  }

  lemma ContentsAgree(lib: Crypto, a: string, b: string, key: string, chain: string, chain': string, leaf: X509,
                      certs: seq<Der>, certs': seq<Der>)
    requires LeadingCert(lib, a) == LeadingCert(lib, b) == Some(leaf)
    requires ChainDer(lib, chain) == Some(certs) && ChainDer(lib, chain') == Some(certs')
    ensures KeystoreContents(lib, a, key, chain) == KeystoreContents(lib, b, key, chain')
      <==> !Usable(lib, key) || certs == certs'
  {
    hide First, LeadingCert, ChainDer, JksEntries, P12Content, AddTrusted, Lower, AliasFor;
    ContentsRead(lib, a, key, chain, leaf, certs);
    ContentsRead(lib, b, key, chain', leaf, certs');
  }

  lemma LeadingPrinted(lib: Crypto, bs: seq<Block>)
    requires Certified(lib, bs)
    ensures LeadingCert(lib, EncodeAll(bs)) == ParseCert(lib, bs[0].bytes)
  {
    hide Encode, Decode, ValidLabel;
    CertificateLabel();
    DecodeEncode(bs[0], EncodeAll(bs[1..]));
  }

  // Of a payload of certificates that parse, with a key that can be used, the two drivers build key stores of the same
  // content if and only if a leaf that comes again is followed by a last certificate that completion applies to, and
  // what completion adds is the same with and without the repetitions.
  lemma ViewsAgreeExactly(env: Env, bs: seq<Block>, cs: seq<Block>, key: string)
    requires bs != [] && Certified(env.lib, bs + cs) && PrintedRoots(env.roots)
    ensures ViewsAgree(env, Texts(EncodeAll(bs), key, EncodeAll(cs)))
      <==> !Usable(env.lib, key) || SameCompletion(env.lib, bs + cs, env.roots)
  {
    hide Encode, EncodeAll, Dedup, SplitBundle, ChainDer, Completed, LeadingCert, Normalized, KeystoreContents, Usable,
      SameCompletion, CompletedTail, WellFormed;
    var all, lib := bs + cs, env.lib;
    var ds := Dedup(all);
    EncodeAllAppend(bs, cs);
    CertificatesAll(all);
    NormalizedEncoded(all);
    CertifiedDedup(lib, all);
    assert EncodeAll(all) == EncodeAll(bs) + EncodeAll(cs);
    assert Certified(lib, bs) by { assert forall i :: 0 <= i < |bs| ==> all[i] == bs[i]; }
    assert TlsBundle(env, EncodeAll(bs), EncodeAll(cs)) == Completed(lib, EncodeAll(ds), env.roots) by {
      NormalizedPrinted(lib, all);
    }
    CompletedTailRead(lib, all, env.roots);
    CompletedTailRead(lib, ds, env.roots);
    LeadingPrinted(lib, bs);
    LeadingEncoded(lib, all[0]);
    TailsAgree(lib, all, env.roots);
    ContentsAgree(lib, Encode(all[0]), EncodeAll(bs), key,
                  SplitBundle(Completed(lib, EncodeAll(ds), env.roots)).1,
                  SplitBundle(Completed(lib, EncodeAll(all), env.roots)).1,
                  ParseCert(lib, all[0].bytes).value,
                  CompletedTail(lib, ds, env.roots), CompletedTail(lib, all, env.roots));
  }

  lemma NormalizedPrinted(lib: Crypto, bs: seq<Block>)
    requires Certified(lib, bs)
    ensures Normalized(EncodeAll(bs)) == EncodeAll(Dedup(bs))
  {
    hide Normalized, EncodeAll, Dedup;
    CertificatesAll(bs);
    NormalizedEncoded(bs);
  }

  // So a Secret with a key store that IssuerReconciler made of such a payload is what CertSyncer expects of it exactly
  // then, and no further do mixed runs stay coherent.
  lemma MixedExactly(env: Env, s: Secret, bs: seq<Block>, cs: seq<Block>, key: string)
    requires Injective(env.lib.digest) && PrintedRoots(env.roots)
    requires bs != [] && Certified(env.lib, bs + cs)
    requires Lookup(s.annotations, SourceHashKey) == HashOf(env, Texts(EncodeAll(bs), key, EncodeAll(cs)))
    requires HasKeystore(s.data) && CoherentSecret(env, ManagerView(env), s)
    ensures CoherentSecret(env, SyncView(env), s) <==> SameCompletion(env.lib, bs + cs, env.roots)
  {
    hide CoherentSecret, SyncView, ManagerView, ViewsAgree, HashOf, Usable, SameCompletion, EncodeAll;
    MixedOnlyIfAgree(env, s, Texts(EncodeAll(bs), key, EncodeAll(cs)));
    ViewsAgreeExactly(env, bs, cs, key);
    HeldIsUsable(env, Texts(EncodeAll(bs), key, EncodeAll(cs)));
  }

  lemma HeldIsUsable(env: Env, t: Texts)
    ensures ManagerView(env)(t).Some? ==> Usable(env.lib, t.key)
  {
    hide Completed, SplitBundle, LeadingCert, First, ChainDer, AddTrusted, Lower, AliasFor;
  }

  // Without a repetition they always agree, whether or not everything parses.
  lemma PrintedPayloadsAgree(env: Env, leaf: Block, chain: seq<Block>, key: string)
    requires AllCertificates([leaf] + chain) && DistinctDers([leaf] + chain) && PrintedRoots(env.roots)
    ensures ViewsAgree(env, Texts(Encode(leaf), key, EncodeAll(chain)))
  {
    hide Encode, EncodeAll, Normalized, Completed, SplitBundle, KeystoreContents, Parsed;
    var extra := CompletedParts(env.lib, leaf, chain, env.roots);
  }

  // A known root verifies the last certificate of this chain, which is not self-issued; where that certificate is the
  // leaf itself, it adds what the certificate before it would get.
  ghost predicate LeafMayRepeat(lib: Crypto, leaf: Block, chain: seq<Block>, roots: seq<string>)
    requires chain != [] && Certified(lib, [leaf] + chain)
  {
    var n := |chain| - 1;
    var top, front := Top(lib, [leaf] + chain), [leaf] + chain[..n];
    CertifiedFront(lib, leaf, chain);
    && Completes(lib, top, roots)
    && (chain[n].bytes == leaf.bytes ==>
          AddedRoot(lib, front, top, roots) == AddedRoot(lib, front, Top(lib, front), roots))
  }

  lemma CertifiedFront(lib: Crypto, leaf: Block, chain: seq<Block>)
    requires chain != [] && Certified(lib, [leaf] + chain)
    ensures
      var front := [leaf] + chain[..|chain| - 1];
      Certified(lib, front) && [leaf] + chain == front + [chain[|chain| - 1]]
  {
    var bs, front := [leaf] + chain, [leaf] + chain[..|chain| - 1];
    assert bs == front + [chain[|chain| - 1]];
    assert forall i :: 0 <= i < |front| ==> front[i] == bs[i];
  }

  // A chain without repetitions that holds the leaf: they agree if and only if completion sets it right.
  lemma RepeatedLeafAgrees(env: Env, leaf: Block, chain: seq<Block>, key: string)
    requires Certified(env.lib, [leaf] + chain) && DistinctDers(chain) && HasDer(chain, leaf.bytes)
    requires PrintedRoots(env.roots) && Usable(env.lib, key)
    ensures
      ViewsAgree(env, Texts(Encode(leaf), key, EncodeAll(chain))) <==> LeafMayRepeat(env.lib, leaf, chain, env.roots)
  {
    hide Dedup, DistinctDers, ViewsAgree, Encode, EncodeAll, Usable, Completes, AddedRoot;
    var lib, n := env.lib, |chain| - 1;
    var bs := [leaf] + chain;
    assert bs[1..] == chain && bs[0] == leaf;
    ViewsAgreeExactly(env, [leaf], chain, key);
    EncodeAllOne(leaf);
    CertifiedDedup(lib, bs);
    CertifiedFront(lib, leaf, chain);
    if chain[n].bytes == leaf.bytes {
      DedupLeafLast(leaf, chain);
    } else {
      DedupLeafInside(lib, leaf, chain);
    }
  }

  lemma DistinctFront(chain: seq<Block>)
    requires chain != [] && DistinctDers(chain)
    ensures DistinctDers(chain[..|chain| - 1]) && !HasDer(chain[..|chain| - 1], chain[|chain| - 1].bytes)
  {
  }

  lemma DistinctCons(b: Block, bs: seq<Block>)
    requires DistinctDers(bs) && !HasDer(bs, b.bytes)
    ensures DistinctDers([b] + bs)
  {
    var all := [b] + bs;
    assert forall i :: 0 < i < |all| ==> all[i] == bs[i - 1];
  }

  // The leaf comes again as the last: without the repetition the bundle ends with the block before.
  lemma DedupLeafLast(leaf: Block, chain: seq<Block>)
    requires chain != [] && DistinctDers(chain) && chain[|chain| - 1].bytes == leaf.bytes
    ensures Dedup([leaf] + chain) == [leaf] + chain[..|chain| - 1]
  {
    hide Dedup, DistinctDers, HasDer;
    var front, last := [leaf] + chain[..|chain| - 1], chain[|chain| - 1];
    assert [leaf] + chain == front + [last];
    DistinctFront(chain);
    DistinctCons(leaf, chain[..|chain| - 1]);
    HasDerCons(leaf, chain[..|chain| - 1]);
    DedupStep(front, last);
    DedupDistinct(front);
  }

  // It comes again before the last: the last stays the last.
  lemma DedupLeafInside(lib: Crypto, leaf: Block, chain: seq<Block>)
    requires chain != [] && DistinctDers(chain) && chain[|chain| - 1].bytes != leaf.bytes
    ensures
      var ds := Dedup([leaf] + chain);
      ds != [] && ds[|ds| - 1] == chain[|chain| - 1]
  {
    hide Dedup, DistinctDers, HasDer;
    var front, last := [leaf] + chain[..|chain| - 1], chain[|chain| - 1];
    assert [leaf] + chain == front + [last];
    DistinctFront(chain);
    HasDerCons(leaf, chain[..|chain| - 1]);
    DedupStep(front, last);
  }

  // They part on a self-issued leaf that comes again as the chain, which VerifyChain accepts where it signed itself:
  // CertSyncer drops the repetition, IssuerReconciler keeps it.
  lemma RepeatedLeafParts(env: Env, leaf: Block, key: string)
    requires Certified(env.lib, [leaf]) && PrintedRoots(env.roots) && Usable(env.lib, key)
    requires var c := Top(env.lib, [leaf]); SelfIssued(c) && env.lib.signedBy(c, c)
    ensures ChainAccepted(env.lib, Encode(leaf), Encode(leaf))
    ensures !ViewsAgree(env, Texts(Encode(leaf), key, Encode(leaf)))
  {
    hide Encode, EncodeAll, DecodeAll, ViewsAgree, Usable, AddedRoot, Parsed;
    EncodeAllOne(leaf);
    CertificateLabel();
    PrintedAccepted(env.lib, leaf, [leaf]);
    ParsedOne(env.lib, leaf);
    assert [leaf][0].bytes == leaf.bytes;
    CertifiedMore(env.lib, [leaf], [leaf]);
    RepeatedLeafAgrees(env, leaf, [leaf], key);
  }
}
