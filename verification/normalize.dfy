// internal/controller/parse.go: NormalizePEM.
module Normalize {
  import opened Common
  import opened Pem
  import Base64

  const GLUE := "----------BEGIN"
  const SPLIT := "-----\n-----BEGIN"

  // bytes.ReplaceAll(s, GLUE, SPLIT): leftmost matches that do not overlap.
  function SplitGlue(s: string): string {
    if |s| < |GLUE| then s
    else if GLUE <= s then SPLIT + SplitGlue(s[|GLUE|..])
    else [s[0]] + SplitGlue(s[1..])
  }

  // The blocks whose DER no earlier block has, in order.
  ghost function Dedup(bs: seq<Block>): seq<Block> {
    if bs == [] then []
    else
      var init, last := bs[..|bs| - 1], bs[|bs| - 1];
      if HasDer(init, last.bytes) then Dedup(init) else Dedup(init) + [last]
  }

  ghost predicate HasDer(bs: seq<Block>, d: Der) {
    exists i :: 0 <= i < |bs| && bs[i].bytes == d
  }

  ghost predicate DistinctDers(bs: seq<Block>) {
    forall i, j :: 0 <= i < j < |bs| ==> bs[i].bytes != bs[j].bytes
  }

  ghost function Normalized(raw: string): string {
    var g := SplitGlue(raw);
    var bs := Dedup(DecodeAll(g));
    if bs == [] then g else EncodeAll(bs)
  }

  // The loop has decoded `done`; `out` and `seen` are what it keeps of them.
  ghost predicate Decoded(fingerprint: Der -> string, text: string, done: seq<Block>, rest: string,
                          out: string, seen: set<string>)
  {
    && DecodeAll(text) == done + DecodeAll(rest)
    && out == EncodeAll(Dedup(done))
    && forall d :: fingerprint(d) in seen <==> HasDer(done, d)
  }

  lemma DecodedStep(fingerprint: Der -> string, text: string, done: seq<Block>, rest: string,
                    out: string, seen: set<string>)
    requires Injective(fingerprint) && Decoded(fingerprint, text, done, rest, out, seen)
    requires Decode(rest).Some?
    ensures
      var (b, rest') := Decode(rest).value;
      var sum := fingerprint(b.bytes);
      && (sum in seen ==> Decoded(fingerprint, text, done + [b], rest', out, seen))
      && (sum !in seen ==> Decoded(fingerprint, text, done + [b], rest', out + Encode(b), seen + {sum}))
  {
    hide Decode, Encode, Dedup, EncodeAll;
    DecodeAllStep(rest);
    var (b, rest') := Decode(rest).value;
    DedupStep(done, b);
    HasDerStep(done, b);
    assert done + ([b] + DecodeAll(rest')) == done + [b] + DecodeAll(rest');
  }

  lemma DecodedDone(fingerprint: Der -> string, raw: string, done: seq<Block>, rest: string,
                    out: string, seen: set<string>)
    requires Decoded(fingerprint, SplitGlue(raw), done, rest, out, seen)
    requires Decode(rest).None?
    ensures Normalized(raw) == if |out| == 0 then SplitGlue(raw) else out
  {
    hide Decode, Encode, Dedup;
    DecodeAllStep(rest);
    assert done + [] == done;
    EncodeAllEmpty(Dedup(done));
  }

  method NormalizePEM(fingerprint: Der -> string, raw: string) returns (r: string)
    requires Injective(fingerprint)
    ensures r == Normalized(raw)
  {
    if raw == "" { return raw; }
    var glueless := SplitGlue(raw);
    var seen: set<string> := {};
    var out := "";
    var rest := glueless;
    ghost var done: seq<Block> := [];
    while true
      invariant Decoded(fingerprint, glueless, done, rest, out, seen)
      decreases |rest|
    {
      var next := Decode(rest);
      if next.None? { break; }
      DecodedStep(fingerprint, glueless, done, rest, out, seen);
      var block := next.value.0;
      rest := next.value.1;
      done := done + [block];
      var sum := fingerprint(block.bytes);
      if sum in seen { continue; }
      seen := seen + {sum};
      out := out + Encode(block);
    }
    DecodedDone(fingerprint, raw, done, rest, out, seen);
    return if |out| == 0 then glueless else out;
  }

  /******* Dedup *******/

  lemma HasDerStep(bs: seq<Block>, b: Block)
    ensures forall d :: HasDer(bs + [b], d) <==> HasDer(bs, d) || d == b.bytes
  {
    forall d ensures HasDer(bs + [b], d) <==> HasDer(bs, d) || d == b.bytes {
      var cs := bs + [b];
      assert cs[|bs|] == b;
      if HasDer(bs, d) {
        var i :| 0 <= i < |bs| && bs[i].bytes == d;
        assert cs[i].bytes == d;
      }
    }
  }

  lemma EncodeAllEmpty(bs: seq<Block>)
    ensures EncodeAll(bs) == "" <==> bs == []
  {
  }

  lemma DedupStep(bs: seq<Block>, b: Block)
    ensures Dedup(bs + [b]) == if HasDer(bs, b.bytes) then Dedup(bs) else Dedup(bs) + [b]
    ensures EncodeAll(Dedup(bs + [b])) == EncodeAll(Dedup(bs)) + if HasDer(bs, b.bytes) then "" else Encode(b)
  {
    assert (bs + [b])[..|bs|] == bs;
    EncodeAllAppend(Dedup(bs), [b]);
    assert EncodeAll([b]) == Encode(b);
  }

  lemma {:induction false} DedupProperties(bs: seq<Block>)
    ensures DistinctDers(Dedup(bs))
    ensures forall d :: HasDer(Dedup(bs), d) <==> HasDer(bs, d)
    ensures forall b :: b in Dedup(bs) ==> b in bs
    ensures bs != [] ==> Dedup(bs) != [] && Dedup(bs)[0] == bs[0]
  {
    if bs != [] {
      var init, last := bs[..|bs| - 1], bs[|bs| - 1];
      assert bs == init + [last];
      DedupProperties(init);
      HasDerStep(init, last);
      HasDerStep(Dedup(init), last);
      if !HasDer(init, last.bytes) {
        assert !HasDer(Dedup(init), last.bytes);
      }
    }
  }

  lemma {:induction false} DedupDistinct(bs: seq<Block>)
    requires DistinctDers(bs)
    ensures Dedup(bs) == bs
  {
    if bs != [] {
      var init := bs[..|bs| - 1];
      DedupDistinct(init);
      assert bs == init + [bs[|bs| - 1]];
    }
  }

  // The blocks kept are the first ones with their DER, in the order in which they come.
  lemma {:induction false} DedupInOrder(bs: seq<Block>) returns (at: seq<nat>)
    ensures |at| == |Dedup(bs)| && forall i, j :: 0 <= i < j < |at| ==> at[i] < at[j]
    ensures forall i :: 0 <= i < |at| ==> at[i] < |bs| && Dedup(bs)[i] == bs[at[i]]
    ensures forall i, j :: 0 <= i < |at| && 0 <= j < at[i] ==> bs[j].bytes != bs[at[i]].bytes
  {
    hide Dedup, HasDer;
    if bs == [] {
      DedupDistinct(bs);
      at := [];
    } else {
      var init, last := bs[..|bs| - 1], bs[|bs| - 1];
      assert bs == init + [last];
      at := DedupInOrder(init);
      DedupStep(init, last);
      assert forall j :: 0 <= j < |init| ==> bs[j] == init[j];
      if !HasDer(init, last.bytes) {
        NotThere(init, last.bytes);
        at := at + [|init|];
      }
    }
  }

  lemma NotThere(bs: seq<Block>, d: Der)
    requires !HasDer(bs, d)
    ensures forall j :: 0 <= j < |bs| ==> bs[j].bytes != d
  {
  }

  /******* Splitting glue *******/

  ghost predicate GlueFree(s: string) {
    forall i :: 0 <= i <= |s| ==> !(GLUE <= s[i..])
  }

  lemma GlueCharacters()
    ensures forall i :: 0 <= i < 10 ==> GLUE[i] == '-'
    ensures forall i :: 10 <= i < |GLUE| ==> GLUE[i] != '-' && GLUE[i] != '\n'
    ensures forall i :: 0 <= i < |SPLIT| ==> SPLIT[i] == if i == 5 then '\n' else if i < 11 then '-' else GLUE[i - 1]
  {
  }

  // The replacement starts with no proper suffix of the pattern.
  lemma SplitNotGlueSuffix(j: nat, x: string)
    requires 0 < j < |GLUE|
    ensures !(GLUE[j..] <= SPLIT + x)
  {
    GlueCharacters();
    var k := if j <= 5 then 5 else if j < 10 then 10 - j else 0;
    assert GLUE[j + k] != SPLIT[k];
    assert (SPLIT + x)[k] == SPLIT[k];
    assert GLUE[j..][k] == GLUE[j + k];
  }

  // The replacement neither contains nor begins a match.
  lemma GlueFreeAfterSplit(rest: string)
    requires GlueFree(rest)
    ensures GlueFree(SPLIT + rest)
  {
    GlueCharacters();
    var out := SPLIT + rest;
    forall i | 0 <= i <= |out| ensures !(GLUE <= out[i..]) {
      if i >= |SPLIT| {
        assert out[i..] == rest[i - |SPLIT|..];
      } else {
        var k := if i <= 5 then 5 - i else if i <= 11 then 11 - i else 0;
        assert out[i + k] == SPLIT[i + k] != GLUE[k];
        assert |out[i..]| > k ==> out[i..][k] == out[i + k];
      }
    }
  }

  lemma GlueFreeCons(c: char, rest: string)
    requires GlueFree(rest) && !(GLUE <= [c] + rest)
    ensures GlueFree([c] + rest)
  {
    var out := [c] + rest;
    forall i | 0 <= i <= |out| ensures !(GLUE <= out[i..]) {
      if i > 0 {
        assert out[i..] == rest[i - 1..];
      } else {
        assert out[i..] == out;
      }
    }
  }

  // A proper suffix of the pattern at the front of the output was there in the input.
  lemma {:induction false} SplitGluePrefix(s: string, j: nat)
    requires 0 < j <= |GLUE| && GLUE[j..] <= SplitGlue(s)
    ensures GLUE[j..] <= s
    decreases |GLUE| - j
  {
    if j < |GLUE| && |s| >= |GLUE| {
      var out, pat := SplitGlue(s), GLUE[j..];
      if GLUE <= s {
        SplitNotGlueSuffix(j, SplitGlue(s[|GLUE|..]));
        assert false;
      } else {
        assert pat[0] == out[0] == s[0];
        assert GLUE[j + 1..] == pat[1..] && out[1..] == SplitGlue(s[1..]);
        SplitGluePrefix(s[1..], j + 1);
        assert pat == [pat[0]] + GLUE[j + 1..] && s == [s[0]] + s[1..];
      }
    }
  }

  lemma {:induction false} SplitGlueFree(s: string)
    ensures GlueFree(SplitGlue(s))
  {
    if |s| < |GLUE| {
    } else if GLUE <= s {
      SplitGlueFree(s[|GLUE|..]);
      GlueFreeAfterSplit(SplitGlue(s[|GLUE|..]));
    } else {
      SplitGlueFree(s[1..]);
      CopyStartsNoMatch(s);
      GlueFreeCons(s[0], SplitGlue(s[1..]));
    }
  }

  // What the loop copies does not start a match with what it puts behind it.
  lemma CopyStartsNoMatch(s: string)
    requires s != "" && !(GLUE <= s)
    ensures !(GLUE <= [s[0]] + SplitGlue(s[1..]))
  {
    hide SplitGlue;
    var out := [s[0]] + SplitGlue(s[1..]);
    if GLUE <= out {
      assert GLUE[1..] <= out[1..] == SplitGlue(s[1..]);
      SplitGluePrefix(s[1..], 1);
      assert false;
    }
  }

  lemma {:induction false} SplitGlueIdentity(s: string)
    requires GlueFree(s)
    ensures SplitGlue(s) == s
  {
    if |s| >= |GLUE| {
      assert s[0..] == s;
      forall i | 0 <= i <= |s[1..]| ensures !(GLUE <= s[1..][i..]) {
        assert s[1..][i..] == s[i + 1..];
      }
      SplitGlueIdentity(s[1..]);
    }
  }

  // Fewer than ten characters on, there is one that is not a hyphen.
  ghost predicate Breaks(u: string, i: nat) {
    exists j :: i <= j < i + 10 && j < |u| && u[j] != '-'
  }

  ghost predicate DashSafe(u: string) {
    forall i :: 0 <= i < |u| ==> Breaks(u, i)
  }

  lemma BreaksBy(u: string, i: nat, j: nat)
    requires i <= j < i + 10 && j < |u| && u[j] != '-'
    ensures Breaks(u, i)
  {
  }

  lemma DashSafeAppend(u: string, v: string)
    requires DashSafe(u) && DashSafe(v)
    ensures DashSafe(u + v)
  {
    forall i | 0 <= i < |u + v| ensures Breaks(u + v, i) {
      if i < |u| {
        assert Breaks(u, i);
        var j :| i <= j < i + 10 && j < |u| && u[j] != '-';
        BreaksBy(u + v, i, j);
      } else {
        assert Breaks(v, i - |u|);
        var j :| i - |u| <= j < i - |u| + 10 && j < |v| && v[j] != '-';
        BreaksBy(u + v, i, |u| + j);
      }
    }
  }

  lemma DashSafeTail(u: string)
    requires DashSafe(u) && u != ""
    ensures DashSafe(u[1..])
  {
    forall i | 0 <= i < |u[1..]| ensures Breaks(u[1..], i) {
      assert Breaks(u, i + 1);
      var j :| i + 1 <= j < i + 11 && j < |u| && u[j] != '-';
      BreaksBy(u[1..], i, j - 1);
    }
  }

  lemma GlueNeedsDashes(u: string, v: string)
    requires DashSafe(u) && u != ""
    ensures !(GLUE <= u + v)
  {
    assert Breaks(u, 0);
    var j :| 0 <= j < 10 && j < |u| && u[j] != '-';
    assert (u + v)[j] == u[j] && GLUE[j] == '-';
  }

  // One character that starts no match is copied.
  lemma SplitGlueCopies(c: char, t: string)
    requires !(GLUE <= [c] + t)
    ensures SplitGlue([c] + t) == [c] + SplitGlue(t)
  {
    assert ([c] + t)[1..] == t;
  }

  lemma {:induction false} SplitGlueSkip(u: string, v: string)
    requires DashSafe(u)
    ensures SplitGlue(u + v) == u + SplitGlue(v)
  {
    if u == "" {
      assert u + v == v && u + SplitGlue(v) == SplitGlue(v);
    } else {
      var c, t := u[0], u[1..];
      GlueNeedsDashes(u, v);
      DashSafeTail(u);
      SplitGlueSkip(t, v);
      assert u == [c] + t;
      AppendAssociative([c], t, v);
      AppendAssociative([c], t, SplitGlue(v));
      SplitGlueCopies(c, t + v);
    }
  }

  lemma AppendAssociative(a: string, b: string, c: string)
    ensures a + b + c == a + (b + c)
  {
  }

  // A printed block without its last six characters: "-----" and the newline.
  function Stem(b: Block): string {
    BEGIN + b.kind + DASHES + "\n" + Lines(Base64.Encode(b.bytes)) + END + b.kind
  }

  lemma LabelDashSafe(l: string)
    requires ValidLabel(l)
    ensures DashSafe(l)
  {
    forall i | 0 <= i < |l| ensures Breaks(l, i) {
      if l[i] == '-' {
        assert SingleAt(l, i);
        BreaksBy(l, i, i + 1);
      } else {
        BreaksBy(l, i, i);
      }
    }
  }

  // Text without hyphens, ended by a newline.
  lemma LineDashSafe(l: string)
    requires '-' !in l
    ensures DashSafe(l + "\n")
  {
    forall i | 0 <= i < |l + "\n"| ensures Breaks(l + "\n", i) {
      BreaksBy(l + "\n", i, i);
    }
  }

  lemma {:induction false} LinesDashSafe(s: string)
    requires Base64.IsEncoded(s)
    ensures DashSafe(Lines(s))
  {
    if |s| > 64 {
      LinesDashSafe(s[64..]);
      LineDashSafe(s[..64]);
      DashSafeAppend(s[..64] + "\n", Lines(s[64..]));
    } else {
      LineDashSafe(s);
    }
  }

  // Five hyphens and then none.
  lemma MarkerDashSafe(m: string)
    requires 5 < |m| && forall i :: 5 <= i < |m| ==> m[i] != '-'
    ensures DashSafe(m)
  {
    forall i | 0 <= i < |m| ensures Breaks(m, i) {
      BreaksBy(m, i, if i < 5 then 5 else i);
    }
  }

  lemma MarkersDashSafe()
    ensures DashSafe(BEGIN) && DashSafe(DASHES + "\n") && DashSafe(END) && DashSafe("-----BEGIN")
  {
    MarkerDashSafe(BEGIN);
    MarkerDashSafe(DASHES + "\n");
    MarkerDashSafe(END);
    MarkerDashSafe("-----BEGIN");
  }

  lemma StemDashSafe(b: Block)
    requires ValidLabel(b.kind)
    ensures DashSafe(Stem(b)) && DashSafe(Encode(b))
    ensures Encode(b) == Stem(b) + (DASHES + "\n")
  {
    var lines := Lines(Base64.Encode(b.bytes));
    MarkersDashSafe();
    LabelDashSafe(b.kind);
    LinesDashSafe(Base64.Encode(b.bytes));
    var head := BEGIN + b.kind + (DASHES + "\n");
    DashSafeAppend(BEGIN, b.kind);
    DashSafeAppend(BEGIN + b.kind, DASHES + "\n");
    DashSafeAppend(head, lines);
    DashSafeAppend(head + lines, END);
    DashSafeAppend(head + lines + END, b.kind);
    assert Stem(b) == head + lines + END + b.kind;
    DashSafeAppend(Stem(b), DASHES + "\n");
    assert Encode(b) == Stem(b) + (DASHES + "\n");
  }

  lemma {:induction false} EncodeAllDashSafe(bs: seq<Block>)
    requires WellFormed(bs)
    ensures DashSafe(EncodeAll(bs))
  {
    if bs != [] {
      StemDashSafe(bs[0]);
      EncodeAllDashSafe(bs[1..]);
      DashSafeAppend(Encode(bs[0]), EncodeAll(bs[1..]));
    }
  }

  lemma SplitGlueEncoded(bs: seq<Block>)
    requires WellFormed(bs)
    ensures SplitGlue(EncodeAll(bs)) == EncodeAll(bs)
  {
    EncodeAllDashSafe(bs);
    SplitGlueSkip(EncodeAll(bs), "");
    assert EncodeAll(bs) + "" == EncodeAll(bs);
  }

  /******* What NormalizePEM promises *******/

  lemma NormalizedEncoded(bs: seq<Block>)
    requires WellFormed(bs)
    ensures Normalized(EncodeAll(bs)) == EncodeAll(Dedup(bs))
  {
    SplitGlueEncoded(bs);
    DecodeAllEncodeAll(bs);
    DedupProperties(bs);
  }

  // With blocks in the input, the output decodes to exactly their first occurrences, in order.
  lemma NormalizedDecodes(raw: string)
    requires DecodeAll(SplitGlue(raw)) != []
    ensures DecodeAll(Normalized(raw)) == Dedup(DecodeAll(SplitGlue(raw)))
  {
    var bs := DecodeAll(SplitGlue(raw));
    DecodeAllWellFormed(SplitGlue(raw));
    DedupProperties(bs);
    DecodeAllEncodeAll(Dedup(bs));
  }

  // Without a block the glue-split text comes back; that is the input itself only when it held no glue.
  lemma FallbackIsOriginal(raw: string)
    requires DecodeAll(SplitGlue(raw)) == []
    ensures Normalized(raw) == SplitGlue(raw)
    ensures Normalized(raw) == raw <==> GlueFree(raw)
  {
    SplitGlueFree(raw);
    if GlueFree(raw) {
      SplitGlueIdentity(raw);
    }
  }

  // Fifteen characters that hold no block and do not come back unchanged.
  lemma FallbackDiffers()
    ensures DecodeAll(SplitGlue(GLUE)) == [] && Normalized(GLUE) == SPLIT != GLUE
  {
    hide Decode, Scan;
    SplitGlueReplaces("");
    assert GLUE + "" == GLUE && SPLIT + SplitGlue("") == SPLIT;
    NoBlockInSplit();
    DecodeAllStep(SPLIT);
  }

  lemma NoBlockInSplit()
    ensures Decode(SPLIT).None?
  {
    hide Scan, Trim, Line, After;
    var second := "-----BEGIN";
    assert SPLIT == DASHES + "\n" + second;
    ScanIdleLine(DASHES, second);
    ScanFinalNewline(second, Idle);
    assert second + "\n" == second + "\n" + "";
    ScanIdleLine(second, "");
    DecodeEmpty();
  }

  lemma NormalizedIdempotent(raw: string)
    ensures Normalized(Normalized(raw)) == Normalized(raw)
  {
    hide Decode, Scan;
    var g := SplitGlue(raw);
    var ds := Dedup(DecodeAll(g));
    SplitGlueFree(raw);
    SplitGlueIdentity(g);
    DecodeAllWellFormed(g);
    DedupProperties(DecodeAll(g));
    if ds != [] {
      NormalizedEncoded(ds);
      DedupDistinct(ds);
    }
  }

  // Printed blocks, some of them without the newline at their end.
  function Joined(bs: seq<Block>, newline: seq<bool>): string
    requires |bs| == |newline|
  {
    if bs == [] then ""
    else Stem(bs[0]) + DASHES + (if newline[0] then "\n" else "") + Joined(bs[1..], newline[1..])
  }

  // Splitting restores every newline that was missing between two blocks.
  lemma {:induction false} SplitGlueJoined(bs: seq<Block>, newline: seq<bool>)
    requires |bs| == |newline| && bs != [] && WellFormed(bs)
    ensures SplitGlue(Joined(bs, newline)) + (if newline[|bs| - 1] then "" else "\n") == EncodeAll(bs)
  {
    hide SplitGlue, Encode, Stem;
    var b, rest := bs[0], Joined(bs[1..], newline[1..]);
    var last := if newline[|bs| - 1] then "" else "\n";
    StemDashSafe(b);
    if |bs| == 1 {
      SplitGlueLast(b, newline[0]);
      assert Joined(bs, newline) == Stem(b) + (DASHES + if newline[0] then "\n" else "");
      assert EncodeAll(bs) == Encode(b);
    } else {
      SplitGlueJoined(bs[1..], newline[1..]);
      SplitGlueFront(b, newline[0], bs[1..], newline[1..]);
      AppendAssociative(Encode(b), SplitGlue(rest), last);
    }
  }

  lemma SplitGlueLast(b: Block, newline: bool)
    requires ValidLabel(b.kind)
    ensures SplitGlue(Stem(b) + (DASHES + if newline then "\n" else ""))
      == Stem(b) + (DASHES + if newline then "\n" else "")
  {
    StemDashSafe(b);
    SplitGlueSkip(Stem(b), DASHES + if newline then "\n" else "");
  }

  lemma SplitGlueFront(b: Block, newline: bool, bs: seq<Block>, newlines: seq<bool>)
    requires ValidLabel(b.kind) && |bs| == |newlines| && bs != []
    ensures
      var rest := Joined(bs, newlines);
      SplitGlue(Stem(b) + DASHES + (if newline then "\n" else "") + rest) == Encode(b) + SplitGlue(rest)
  {
    var rest := Joined(bs, newlines);
    StemDashSafe(b);
    if newline {
      assert Stem(b) + DASHES + "\n" + rest == Encode(b) + rest;
      SplitGlueSkip(Encode(b), rest);
    } else {
      assert Stem(b) + DASHES + "" + rest == Stem(b) + (DASHES + rest);
      SplitGlueSkip(Stem(b), DASHES + rest);
      JoinedBegins(bs, newlines);
      SplitGlueMash(rest);
      AppendAssociative(Stem(b), DASHES + "\n", SplitGlue(rest));
    }
  }

  lemma JoinedBegins(bs: seq<Block>, newline: seq<bool>)
    requires |bs| == |newline| && bs != []
    ensures "-----BEGIN" <= Joined(bs, newline)
  {
    assert "-----BEGIN" <= BEGIN;
    assert BEGIN <= Stem(bs[0]) <= Joined(bs, newline);
  }

  // A match is replaced.
  lemma SplitGlueReplaces(t: string)
    ensures SplitGlue(GLUE + t) == SPLIT + SplitGlue(t)
  {
    assert (GLUE + t)[|GLUE|..] == t;
  }

  lemma SplitGlueMash(rest: string)
    requires "-----BEGIN" <= rest
    ensures SplitGlue(DASHES + rest) == DASHES + "\n" + SplitGlue(rest)
  {
    var begin, tail := "-----BEGIN", rest[10..];
    assert rest == begin + tail;
    AppendAssociative(DASHES, begin, tail);
    assert GLUE == DASHES + begin && SPLIT == DASHES + "\n" + begin;
    SplitGlueReplaces(tail);
    MarkersDashSafe();
    SplitGlueSkip(begin, tail);
    AppendAssociative(DASHES + "\n", begin, SplitGlue(tail));
  }

  // However the newlines between printed blocks got lost, the result is the same.
  lemma NormalizedIgnoresGlue(bs: seq<Block>, newline: seq<bool>)
    requires |bs| == |newline| && bs != [] && WellFormed(bs)
    ensures Normalized(Joined(bs, newline)) == Normalized(EncodeAll(bs)) == EncodeAll(Dedup(bs))
  {
    SplitGlueJoined(bs, newline);
    NormalizedEncoded(bs);
    var g := SplitGlue(Joined(bs, newline));
    DecodeAllEncodeAll(bs);
    DedupProperties(bs);
    if !newline[|bs| - 1] {
      DecodeAllFinalNewline(g);
    } else {
      assert g + "" == g;
    }
  }
}
