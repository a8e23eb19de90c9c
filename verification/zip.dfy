// internal/tencentcert/ssl.go: sorting the files of a download into leaf, chain and key.
module Zip {
  import opened Common
  import opened Pem
  import Base64
  import opened Keystore

  datatype Bucket = Excluded | ChainFile | KeyFile | LeafFile

  // `data` is None when the entry cannot be opened or read.
  datatype File = File(name: string, data: Option<string>)

  predicate Contains(s: string, t: string) {
    exists i :: 0 <= i <= |s| && t <= s[i..]
  }

  // Known binary formats are skipped; "chain" and "intermediate" win over "key".
  function Classify(name: string): Bucket {
    var lower := Lower(name);
    if HasSuffix(lower, ".jks") || HasSuffix(lower, ".keystore") || HasSuffix(lower, ".pfx") || HasSuffix(lower, ".p12")
       || HasSuffix(lower, ".txt") then Excluded
    else if Contains(lower, "chain") || Contains(lower, "intermediate") then ChainFile
    else if Contains(lower, "key") then KeyFile
    else LeafFile
  }

  // Whether a text occurs in another.
  ghost predicate Occurs(t: string, s: string) {
    exists a: string, b: string :: s == a + t + b
  }

  ghost predicate EndsIn(s: string, t: string) {
    |t| <= |s| && s[|s| - |t|..] == t
  }

  // By the name in lower case: the binary formats and text files by their suffix, then chain or intermediate, then key
  // anywhere in the name, then everything else.
  lemma ClassifyReads(name: string)
    ensures
      var s := Lower(name);
      var excluded := EndsIn(s, ".jks") || EndsIn(s, ".keystore") || EndsIn(s, ".pfx") || EndsIn(s, ".p12")
        || EndsIn(s, ".txt");
      var chain, key := Occurs("chain", s) || Occurs("intermediate", s), Occurs("key", s);
      && (Classify(name) == Excluded <==> excluded)
      && (Classify(name) == ChainFile <==> !excluded && chain)
      && (Classify(name) == KeyFile <==> !excluded && !chain && key)
      && (Classify(name) == LeafFile <==> !excluded && !chain && !key)
  {
    hide Contains, Occurs, Lower;
    ContainsOccurs(Lower(name), "chain");
    ContainsOccurs(Lower(name), "intermediate");
    ContainsOccurs(Lower(name), "key");
  }

  lemma ContainsOccurs(s: string, t: string)
    ensures Contains(s, t) <==> Occurs(t, s)
  {
    if Contains(s, t) {
      var i :| 0 <= i <= |s| && t <= s[i..];
      assert s == s[..i] + t + s[i..][|t|..];
    }
    if Occurs(t, s) {
      var a: string, b: string :| s == a + t + b;
      assert s[|a|..] == t + b;
    }
  }

  // A newline first where the buffer does not end in one.
  function AppendPEM(dst: string, data: string): string {
    (if dst != "" && dst[|dst| - 1] != '\n' then dst + "\n" else dst) + data
  }

  // What one bucket holds: its files, in archive order.
  function Gathered(files: seq<File>, bucket: Bucket): string {
    if files == [] then ""
    else
      var n := |files| - 1;
      var dst := Gathered(files[..n], bucket);
      if Classify(files[n].name) == bucket && files[n].data.Some? then AppendPEM(dst, files[n].data.value) else dst
  }

  datatype Parts = Parts(leaf: string, chain: string, privateKey: string)

  datatype Extraction = Extracted(parts: Parts) | Unreadable(name: string) | MissingLeafOrKey

  ghost predicate AllReadable(files: seq<File>) {
    forall f :: f in files && Classify(f.name) != Excluded ==> f.data.Some?
  }

  method ExtractFromZip(files: seq<File>) returns (r: Extraction)
    ensures r.Unreadable? <==> !AllReadable(files)
    ensures r.Unreadable? ==>
      exists i :: 0 <= i < |files| && files[i].name == r.name && files[i].data.None? && Classify(r.name) != Excluded
        && AllReadable(files[..i])
    ensures r.MissingLeafOrKey? <==>
      AllReadable(files) && (Gathered(files, LeafFile) == "" || Gathered(files, KeyFile) == "")
    ensures r.Extracted? ==>
      r.parts == Parts(Gathered(files, LeafFile), Gathered(files, ChainFile), Gathered(files, KeyFile))
  {
    hide Contains, Classify;
    var out := Parts("", "", "");
    for i := 0 to |files|
      invariant AllReadable(files[..i])
      invariant out
        == Parts(Gathered(files[..i], LeafFile), Gathered(files[..i], ChainFile), Gathered(files[..i], KeyFile))
    {
      assert files[..i + 1][..i] == files[..i] && files[..i + 1] == files[..i] + [files[i]];
      var f := files[i];
      var bucket := Classify(f.name);
      if bucket == Excluded { continue; }
      if f.data.None? { return Unreadable(f.name); }
      match bucket {
        case ChainFile => out := out.(chain := AppendPEM(out.chain, f.data.value));
        case KeyFile => out := out.(privateKey := AppendPEM(out.privateKey, f.data.value));
        case LeafFile => out := out.(leaf := AppendPEM(out.leaf, f.data.value));
        case Excluded =>
      }
    }
    assert files[..|files|] == files;
    if |out.leaf| == 0 || |out.privateKey| == 0 { return MissingLeafOrKey; }
    return Extracted(out);
  }

  /******* Nothing lost, nothing mixed *******/

  // The blocks of the files of one bucket, in archive order.
  function BlocksOf(files: seq<File>, bucket: Bucket): seq<Block> {
    if files == [] then []
    else
      var n := |files| - 1;
      BlocksOf(files[..n], bucket)
        + if Classify(files[n].name) == bucket && files[n].data.Some? then DecodeAll(files[n].data.value) else []
  }

  // No file leaves a block open that a later line could complete.
  ghost predicate AllSettled(files: seq<File>) {
    forall f :: f in files && f.data.Some? ==> Settled(f.data.value)
  }

  lemma AppendKeepsBlocks(dst: string, data: string)
    requires Settled(dst)
    ensures DecodeAll(AppendPEM(dst, data)) == DecodeAll(dst) + DecodeAll(data)
    ensures Settled(AppendPEM(dst, data)) <==> Settled(data)
  {
    hide DecodeAll, Settled;
    if dst != "" && dst[|dst| - 1] != '\n' {
      DecodeAllFinalNewline(dst);
      DecodeAllAppend(dst + "\n", data);
    } else {
      DecodeAllAppend(dst, data);
    }
  }

  // Whatever the files hold between and around their blocks, each bucket decodes to the blocks of its files,
  // in order; a file that ends without a newline loses and spoils nothing.
  lemma {:induction false} BucketsConserveBlocks(files: seq<File>, bucket: Bucket)
    requires AllSettled(files)
    ensures DecodeAll(Gathered(files, bucket)) == BlocksOf(files, bucket)
    ensures Settled(Gathered(files, bucket))
  {
    hide DecodeAll, Settled, Classify, AppendPEM;
    if files == [] {
      SettledEmpty();
    } else {
      var n := |files| - 1;
      assert files[n] in files;
      BucketsConserveBlocks(files[..n], bucket);
      if files[n].data.Some? {
        AppendKeepsBlocks(Gathered(files[..n], bucket), files[n].data.value);
      }
      assert BlocksOf(files[..n], bucket) + [] == BlocksOf(files[..n], bucket);
    }
  }

  lemma SettledEmpty()
    ensures Settled("") && DecodeAll("") == []
  {
    DecodeEmpty();
  }

  // The blocks of all files that are not excluded.
  function AllBlocks(files: seq<File>): seq<Block> {
    if files == [] then []
    else
      var n := |files| - 1;
      AllBlocks(files[..n])
        + if Classify(files[n].name) != Excluded && files[n].data.Some? then DecodeAll(files[n].data.value) else []
  }

  // Each of them lands in exactly one bucket.
  lemma {:induction false} BucketsPartition(files: seq<File>)
    ensures multiset(AllBlocks(files))
      == multiset(BlocksOf(files, LeafFile)) + multiset(BlocksOf(files, ChainFile)) + multiset(BlocksOf(files, KeyFile))
  {
    hide DecodeAll, Classify;
    if files != [] {
      BucketsPartition(files[..|files| - 1]);
    }
  }

  // Printed blocks, with or without the last newline, are such files.
  lemma {:induction false} PrintedSettled(bs: seq<Block>)
    requires WellFormed(bs)
    ensures Settled(EncodeAll(bs)) && DecodeAll(EncodeAll(bs)) == bs
    ensures bs != [] ==>
      var text := EncodeAll(bs)[..|EncodeAll(bs)| - 1];
      text + "\n" == EncodeAll(bs) && Settled(text) && DecodeAll(text) == bs
  {
    hide Scan, Decode, DecodeAll, Encode;
    DecodeAllEncodeAll(bs);
    EncodeAllSettled(bs);
    if bs != [] {
      EncodeAllEnds(bs);
      var text := EncodeAll(bs)[..|EncodeAll(bs)| - 1];
      assert text + "\n" == EncodeAll(bs);
      DecodeAllFinalNewline(text);
    }
  }

  lemma {:induction false} EncodeAllSettled(bs: seq<Block>)
    requires WellFormed(bs)
    ensures Settled(EncodeAll(bs))
  {
    hide Scan, Decode, Encode;
    if bs == [] {
      SettledEmpty();
    } else {
      DecodeEncode(bs[0], EncodeAll(bs[1..]));
      EncodeAllSettled(bs[1..]);
    }
  }

  lemma {:induction false} EncodeAllEnds(bs: seq<Block>)
    requires bs != []
    ensures EncodeAll(bs) != "" && EncodeAll(bs)[|EncodeAll(bs)| - 1] == '\n'
  {
    hide Encode;
    EncodeEnds(bs[0]);
    if |bs| > 1 {
      EncodeAllEnds(bs[1..]);
    } else {
      assert EncodeAll(bs) == Encode(bs[0]);
    }
  }

  // Exactly the files that are settled keep their blocks and those of the next file apart, whatever the next is.
  lemma SettledExact(first: string)
    ensures Settled(first) <==>
      forall second :: DecodeAll(AppendPEM(first, second)) == DecodeAll(first) + DecodeAll(second)
  {
    hide DecodeAll, Settled;
    if Settled(first) {
      forall second ensures DecodeAll(AppendPEM(first, second)) == DecodeAll(first) + DecodeAll(second) {
        AppendKeepsBlocks(first, second);
      }
    } else {
      SettledEmpty();
      DecodeAllFinalNewline(first);
      var terminated := if first[|first| - 1] != '\n' then first + "\n" else first;
      var second, block := UnsettledMixes(terminated);
      assert AppendPEM(first, second) == terminated + second;
      assert DecodeAll(AppendPEM(first, second)) != DecodeAll(first) + DecodeAll(second);
    }
  }

  // Such a pair of files: the buffer decodes to a block that neither of them has.
  lemma OpenFilesMix()
    ensures
      var first, second := BEGIN + "X" + DASHES + "\n", END + "X" + DASHES + "\n";
      && DecodeAll(first) == [] && DecodeAll(second) == [] && !Settled(first)
      && DecodeAll(AppendPEM(first, second)) == [Block("X", [])]
  {
    hide Scan, Encode, Settled, ValidLabel;
    var begin, end := BEGIN + "X" + DASHES, END + "X" + DASHES;
    var first, second := begin + "\n", end + "\n";
    ValidWord("X");
    DecodeEmpty();
    EndLine("X");
    assert first + "" == first && second + "" == second;
    ScanBegin("X", "", Idle);
    ScanLine(end, "", Idle);
    DecodeAllStep(first);
    DecodeAllStep(second);
    EncodeNothing("X");
    DecodeAllEncodeAll([Block("X", [])]);
    EncodeAllOne(Block("X", []));
    assert AppendPEM(first, second) == first + second;
    SettledExact(first);
  }

  lemma EncodeNothing(kind: string)
    ensures Encode(Block(kind, [])) == BEGIN + kind + DASHES + "\n" + (END + kind + DASHES + "\n")
  {
    assert Base64.Encode([]) == "" && Lines("") == "";
  }

  // A file of an excluded format contributes nothing, wherever it stands in the archive.
  lemma {:induction false} ExcludedContributeNothing(before: seq<File>, f: File, after: seq<File>, bucket: Bucket)
    requires Classify(f.name) == Excluded && bucket != Excluded
    ensures Gathered(before + [f] + after, bucket) == Gathered(before + after, bucket)
  {
    hide Classify, AppendPEM;
    var with, without := before + [f] + after, before + after;
    if after == [] {
      assert with[..|with| - 1] == before && without == before;
    } else {
      var n := |after| - 1;
      assert with[..|with| - 1] == before + [f] + after[..n] && without[..|without| - 1] == before + after[..n];
      ExcludedContributeNothing(before, f, after[..n], bucket);
    }
  }
}
