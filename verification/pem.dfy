// Textual encoding of certificates and keys, section 3 of RFC 7468, as the
// printer and the line scanner that pem.EncodeToMemory and pem.Decode stand for.
module Pem {
  import opened Common
  import Base64

  datatype Block = Block(kind: string, bytes: Der)

  const DASHES := "-----"
  const BEGIN := "-----BEGIN "
  const END := "-----END "

  /******* Labels *******/

  predicate IsSeparator(c: char) {
    c == '-' || c == ' '
  }

  // A hyphen or a space stands only singly and only between two other characters.
  predicate SingleAt(l: string, i: nat)
    requires i < |l|
  {
    IsSeparator(l[i]) ==> 0 < i < |l| - 1 && !IsSeparator(l[i + 1])
  }

  predicate ValidLabel(l: string) {
    && (forall i :: 0 <= i < |l| ==> ' ' <= l[i] <= '~')
    && (forall i :: 0 <= i < |l| ==> SingleAt(l, i))
  }

  lemma ValidWord(l: string)
    requires forall i :: 0 <= i < |l| ==> 'A' <= l[i] <= 'Z'
    ensures ValidLabel(l)
  {
  }

  /******* Printing *******/

  // The body, broken after every 64 characters.
  function Lines(s: string): string {
    if s == "" then ""
    else if |s| <= 64 then s + "\n"
    else s[..64] + "\n" + Lines(s[64..])
  }

  function Encode(b: Block): string {
    BEGIN + b.kind + DASHES + "\n" + Lines(Base64.Encode(b.bytes)) + END + b.kind + DASHES + "\n"
  }

  function EncodeAll(bs: seq<Block>): string {
    if bs == [] then "" else Encode(bs[0]) + EncodeAll(bs[1..])
  }

  ghost predicate WellFormed(bs: seq<Block>) {
    forall b :: b in bs ==> ValidLabel(b.kind)
  }

  /******* Lines *******/

  function Line(s: string): (l: string)
    ensures |l| <= |s| && '\n' !in l
  {
    if s == "" || s[0] == '\n' then "" else [s[0]] + Line(s[1..])
  }

  function After(s: string): (t: string)
    ensures s != "" ==> |t| < |s|
  {
    if s == "" then "" else if s[0] == '\n' then s[1..] else After(s[1..])
  }

  predicate IsBlank(c: char) {
    c == ' ' || c == '\t' || c == '\r'
  }

  // Without the blanks (and the carriage return of a CRLF) at the end of a line.
  function Trim(l: string): string {
    if l != "" && IsBlank(l[|l| - 1]) then Trim(l[..|l| - 1]) else l
  }

  // Without any blank: what a body line contributes.
  function Squeeze(l: string): string {
    if l == "" then "" else (if IsBlank(l[0]) then "" else [l[0]]) + Squeeze(l[1..])
  }

  /******* Scanning *******/

  // What the scanner remembers: the last BEGIN line still open, and its body so far.
  datatype Pending = Idle | Reading(kind: string, body: string)

  predicate IsBegin(line: string) {
    && |line| >= |BEGIN| + |DASHES|
    && BEGIN <= line
    && line[|line| - |DASHES|..] == DASHES
    && ValidLabel(line[|BEGIN|..|line| - |DASHES|])
  }

  // The block this line completes, if it is the END line of the open block and the body decodes.
  function Closes(line: string, p: Pending): Option<Block> {
    if p.Reading? && line == END + p.kind + DASHES then
      match Base64.Decode(p.body)
      case None => None
      case Some(d) => Some(Block(p.kind, d))
    else None
  }

  // A BEGIN line restarts, a line glued behind a BEGIN or END marker spoils the open
  // block, and anything else is body.
  function Advance(line: string, p: Pending): Pending {
    if BEGIN <= line then
      if IsBegin(line) then Reading(line[|BEGIN|..|line| - |DASHES|], "") else Idle
    else if END <= line then Idle
    else if p.Reading? then p.(body := p.body + Squeeze(line))
    else Idle
  }

  function Scan(s: string, p: Pending): (r: Option<(Block, string)>)
    ensures r.Some? ==> |r.value.1| < |s|
    decreases |s|
  {
    if s == "" then None
    else
      var line := Trim(Line(s));
      match Closes(line, p)
      case Some(b) => Some((b, After(s)))
      case None => Scan(After(s), Advance(line, p))
  }

  // pem.Decode: the first block and what follows its END line.
  function Decode(s: string): (r: Option<(Block, string)>)
    ensures r.Some? ==> |r.value.1| < |s|
  {
    Scan(s, Idle)
  }

  function DecodeAll(s: string): seq<Block>
    decreases |s|
  {
    match Decode(s)
    case None => []
    case Some((b, rest)) => [b] + DecodeAll(rest)
  }

  // One turn of a loop over pem.Decode.
  lemma DecodeAllStep(s: string)
    ensures Decode(s).None? ==> DecodeAll(s) == []
    ensures Decode(s).Some? ==> DecodeAll(s) == [Decode(s).value.0] + DecodeAll(Decode(s).value.1)
  {
    hide Scan;
  }

  lemma DecodeEmpty()
    ensures Decode("").None? && DecodeAll("") == []
  {
  }

  function First(s: string): Option<Block> {
    match Decode(s) case None => None case Some((b, _)) => Some(b)
  }

  /******* Decoding undoes printing *******/

  lemma {:induction false} LineSplit(l: string, t: string)
    requires '\n' !in l
    ensures Line(l + "\n" + t) == l && After(l + "\n" + t) == t
  {
    if l == "" {
      assert l + "\n" + t == "\n" + t;
    } else {
      var s := l + "\n" + t;
      assert s[1..] == l[1..] + "\n" + t;
      LineSplit(l[1..], t);
      assert l == [l[0]] + l[1..];
    }
  }

  // One line that does not end in a blank.
  lemma ScanLine(l: string, t: string, p: Pending)
    requires '\n' !in l && (l != "" ==> !IsBlank(l[|l| - 1]))
    ensures Scan(l + "\n" + t, p) ==
      (match Closes(l, p) case Some(b) => Some((b, t)) case None => Scan(t, Advance(l, p)))
  {
    LineSplit(l, t);
  }

  // Nothing is open, and the line opens nothing.
  lemma ScanIdleLine(l: string, t: string)
    requires '\n' !in l && (l != "" ==> !IsBlank(l[|l| - 1])) && !(BEGIN <= l)
    ensures Scan(l + "\n" + t, Idle) == Scan(t, Idle)
  {
    hide Scan;
    ScanLine(l, t, Idle);
  }

  lemma {:induction false} SqueezeEncoded(s: string)
    requires Base64.IsEncoded(s)
    ensures Squeeze(s) == s
  {
    if s != "" {
      SqueezeEncoded(s[1..]);
      assert s == [s[0]] + s[1..];
    }
  }

  lemma ScanBodyLine(l: string, t: string, kind: string, body: string)
    requires l != "" && Base64.IsEncoded(l)
    ensures Scan(l + "\n" + t, Reading(kind, body)) == Scan(t, Reading(kind, body + l))
  {
    hide Scan;
    assert l[0] != '-' && BEGIN[0] == '-' && END[0] == '-';
    ScanLine(l, t, Reading(kind, body));
    SqueezeEncoded(l);
  }

  lemma LinesShort(s: string, t: string)
    requires |s| <= 64
    ensures Lines(s) + t == if s == "" then t else s + "\n" + t
  {
  }

  lemma LinesLong(s: string, t: string)
    requires |s| > 64
    ensures Lines(s) + t == s[..64] + "\n" + (Lines(s[64..]) + t)
  {
    var l, rest := s[..64] + "\n", Lines(s[64..]);
    assert l + rest + t == l + (rest + t);
  }

  lemma {:induction false} ScanBody(s: string, t: string, kind: string, body: string)
    requires Base64.IsEncoded(s)
    ensures Scan(Lines(s) + t, Reading(kind, body)) == Scan(t, Reading(kind, body + s))
  {
    hide Scan, Lines;
    if s == "" {
      LinesShort(s, t);
      assert body + s == body;
    } else if |s| <= 64 {
      LinesShort(s, t);
      ScanBodyLine(s, t, kind, body);
    } else {
      var l, rest := s[..64], s[64..];
      LinesLong(s, t);
      ScanBodyLine(l, Lines(rest) + t, kind, body);
      ScanBody(rest, t, kind, body + l);
      assert s == l + rest;
      assert body + l + rest == body + s;
    }
  }

  lemma ScanBegin(kind: string, t: string, p: Pending)
    requires ValidLabel(kind)
    ensures Scan(BEGIN + kind + DASHES + "\n" + t, p) == Scan(t, Reading(kind, ""))
  {
    var l := BEGIN + kind + DASHES;
    assert l[|BEGIN|..|l| - |DASHES|] == kind;
    assert IsBegin(l);
    assert l[5] == 'B' && END[5] == 'E';
    if p.Reading? {
      assert (END + p.kind + DASHES)[5] == 'E';
    }
    ScanLine(l, t, p);
  }

  lemma ScanEnd(kind: string, d: Der, t: string)
    requires ValidLabel(kind)
    ensures Scan(END + kind + DASHES + "\n" + t, Reading(kind, Base64.Encode(d))) == Some((Block(kind, d), t))
  {
    Base64.DecodeEncode(d);
    ScanLine(END + kind + DASHES, t, Reading(kind, Base64.Encode(d)));
  }

  // The BEGIN line, the body and the END line.
  lemma EncodeParts(b: Block, t: string)
    ensures Encode(b) + t ==
      BEGIN + b.kind + DASHES + "\n" + (Lines(Base64.Encode(b.bytes)) + (END + b.kind + DASHES + "\n" + t))
  {
    var head, body, end := BEGIN + b.kind + DASHES + "\n", Lines(Base64.Encode(b.bytes)), END + b.kind + DASHES + "\n";
    assert Encode(b) == head + body + end;
    assert head + body + end + t == head + (body + (end + t));
  }

  // Wherever the scanner is, a printed block is found.
  lemma ScanEncoded(b: Block, t: string, p: Pending)
    requires ValidLabel(b.kind)
    ensures Scan(Encode(b) + t, p) == Some((b, t))
  {
    hide Scan, Encode, Lines, ValidLabel;
    var body := Base64.Encode(b.bytes);
    var end := END + b.kind + DASHES + "\n" + t;
    EncodeParts(b, t);
    ScanBegin(b.kind, Lines(body) + end, p);
    ScanBody(body, end, b.kind, "");
    assert "" + body == body;
    ScanEnd(b.kind, b.bytes, t);
  }

  lemma DecodeEncode(b: Block, t: string)
    requires ValidLabel(b.kind)
    ensures Decode(Encode(b) + t) == Some((b, t))
  {
    hide Scan, Encode;
    ScanEncoded(b, t, Idle);
  }

  lemma {:induction false} DecodeAllEncodeAll(bs: seq<Block>)
    requires WellFormed(bs)
    ensures DecodeAll(EncodeAll(bs)) == bs
  {
    if bs != [] {
      DecodeEncode(bs[0], EncodeAll(bs[1..]));
      DecodeAllEncodeAll(bs[1..]);
    }
  }

  lemma {:induction false} EncodeAllAppend(bs: seq<Block>, cs: seq<Block>)
    ensures EncodeAll(bs + cs) == EncodeAll(bs) + EncodeAll(cs)
  {
    if bs == [] {
      assert bs + cs == cs;
    } else {
      assert (bs + cs)[1..] == bs[1..] + cs;
      EncodeAllAppend(bs[1..], cs);
      assert EncodeAll(bs + cs) == Encode(bs[0]) + (EncodeAll(bs[1..]) + EncodeAll(cs));
    }
  }

  lemma EncodeEnds(b: Block)
    ensures Encode(b) != "" && Encode(b)[|Encode(b)| - 1] == '\n'
  {
  }

  lemma EncodeAllOne(b: Block)
    ensures EncodeAll([b]) == Encode(b)
  {
    hide Encode;
  }

  lemma EncodeAllCons(b: Block, bs: seq<Block>)
    ensures EncodeAll([b] + bs) == Encode(b) + EncodeAll(bs)
  {
    hide Encode;
    assert ([b] + bs)[1..] == bs;
  }

  lemma FirstEncode(b: Block)
    requires ValidLabel(b.kind)
    ensures First(Encode(b)) == Some(b)
  {
    hide Encode, Decode;
    DecodeEncode(b, "");
    assert Encode(b) + "" == Encode(b);
  }

  // Every decoded block can be printed back.
  lemma {:induction false} ScanWellFormed(s: string, p: Pending)
    requires p.Reading? ==> ValidLabel(p.kind)
    ensures Scan(s, p).Some? ==> ValidLabel(Scan(s, p).value.0.kind)
    decreases |s|
  {
    if s != "" {
      ScanWellFormed(After(s), Advance(Trim(Line(s)), p));
    }
  }

  lemma {:induction false} DecodeAllWellFormed(s: string)
    ensures WellFormed(DecodeAll(s))
    decreases |s|
  {
    ScanWellFormed(s, Idle);
    if Decode(s).Some? {
      DecodeAllWellFormed(Decode(s).value.1);
    }
  }

  /******* Texts put together *******/

  // The scanner's state at the end of a text in which it completed no block.
  function Leftover(s: string, p: Pending): Pending
    decreases |s|
  {
    if s == "" then p else Leftover(After(s), Advance(Trim(Line(s)), p))
  }

  lemma {:induction false} LineAppend(a: string, b: string)
    requires a != "" && a[|a| - 1] == '\n'
    ensures Line(a + b) == Line(a) && After(a + b) == After(a) + b
    ensures After(a) != "" ==> After(a)[|After(a)| - 1] == '\n'
  {
    if a[0] == '\n' {
      assert (a + b)[1..] == a[1..] + b;
    } else {
      assert (a + b)[1..] == a[1..] + b;
      LineAppend(a[1..], b);
    }
  }

  lemma {:induction false} LineFinalNewline(a: string)
    requires a != ""
    ensures Line(a + "\n") == Line(a)
    ensures '\n' in a ==> After(a + "\n") == After(a) + "\n"
    ensures '\n' !in a ==> After(a) == "" && After(a + "\n") == ""
  {
    assert (a + "\n")[1..] == a[1..] + "\n";
    if a[0] != '\n' && |a| > 1 {
      LineFinalNewline(a[1..]);
      assert a == [a[0]] + a[1..];
    }
  }

  ghost predicate Terminated(s: string) {
    s == "" || s[|s| - 1] == '\n'
  }

  // Behind a terminated text the scanner goes on in the state it is left in.
  lemma {:induction false} ScanAppend(a: string, b: string, p: Pending)
    requires Terminated(a)
    ensures Scan(a, p).Some? ==>
      && Scan(a + b, p) == Some((Scan(a, p).value.0, Scan(a, p).value.1 + b))
      && Terminated(Scan(a, p).value.1)
    ensures Scan(a, p).None? ==> Scan(a + b, p) == Scan(b, Leftover(a, p))
    decreases |a|
  {
    if a == "" {
      assert a + b == b;
    } else {
      LineAppend(a, b);
      var line := Trim(Line(a));
      if Closes(line, p).None? {
        ScanAppend(After(a), b, Advance(line, p));
      }
    }
  }

  lemma {:induction false} LeftoverAppend(a: string, b: string, p: Pending)
    requires Terminated(a)
    ensures Leftover(a + b, p) == Leftover(b, Leftover(a, p))
    decreases |a|
  {
    if a == "" {
      assert a + b == b;
    } else {
      LineAppend(a, b);
      LeftoverAppend(After(a), b, Advance(Trim(Line(a)), p));
    }
  }

  lemma {:induction false} LeftoverFinalNewline(a: string, p: Pending)
    ensures Leftover(a + "\n", p) == Leftover(a, p)
    decreases |a|
  {
    if a == "" {
      assert a + "\n" == "\n" && After("\n") == "";
      assert Advance("", p) == p;
    } else {
      LineFinalNewline(a);
      if '\n' in a {
        LeftoverFinalNewline(After(a), Advance(Trim(Line(a)), p));
      }
    }
  }

  // One newline more at the very end changes nothing.
  lemma {:induction false} ScanFinalNewline(a: string, p: Pending)
    ensures Scan(a, p).Some? <==> Scan(a + "\n", p).Some?
    ensures Scan(a, p).Some? ==>
      var (b, rest), (b', rest') := Scan(a, p).value, Scan(a + "\n", p).value;
      b' == b && (rest' == rest + "\n" || rest == rest' == "")
    decreases |a|
  {
    if a == "" {
      assert Scan("\n", p).None?;
    } else {
      LineFinalNewline(a);
      var line := Trim(Line(a));
      if Closes(line, p).None? && '\n' in a {
        ScanFinalNewline(After(a), Advance(line, p));
      }
    }
  }

  /******* Texts that keep to themselves *******/

  // No block is open, or one whose body no further line can turn into base64.
  predicate Stuck(p: Pending) {
    p.Idle? || !Base64.Extensible(p.body)
  }

  // Behind the last block nothing is left that a later line could complete.
  ghost predicate Settled(s: string)
    decreases |s|
  {
    match Decode(s)
    case None => Stuck(Leftover(s, Idle))
    case Some((_, rest)) => Settled(rest)
  }

  // A stuck scanner finds what an idle one finds.
  lemma {:induction false} ScanStuck(s: string, p: Pending)
    requires Stuck(p)
    ensures Scan(s, p) == Scan(s, Idle)
    ensures Stuck(Leftover(s, p)) <==> Stuck(Leftover(s, Idle))
    decreases |s|
  {
    hide Base64.Extensible, Base64.Decode;
    if s != "" && p.Reading? {
      var line := Trim(Line(s));
      if Base64.Decode(p.body).Some? {
        assert p.body + "" == p.body;
        Base64.DecodableExtends(p.body, "");
      }
      var next := Advance(line, p);
      if !(BEGIN <= line) && !(END <= line) {
        if Base64.Extensible(p.body + Squeeze(line)) {
          Base64.ExtensiblePrefix(p.body, Squeeze(line));
        }
        ScanStuck(After(s), next);
      }
    }
  }

  lemma {:induction false} DecodeAllFinalNewline(a: string)
    ensures DecodeAll(a + "\n") == DecodeAll(a)
    ensures Settled(a + "\n") <==> Settled(a)
    decreases |a|
  {
    hide Stuck;
    ScanFinalNewline(a, Idle);
    LeftoverFinalNewline(a, Idle);
    if Decode(a).Some? && Decode(a + "\n").value.1 != Decode(a).value.1 {
      DecodeAllFinalNewline(Decode(a).value.1);
    }
  }

  lemma SettledStep(s: string)
    ensures Decode(s).None? ==> (Settled(s) <==> Stuck(Leftover(s, Idle)))
    ensures Decode(s).Some? ==> (Settled(s) <==> Settled(Decode(s).value.1))
  {
    hide Scan, Leftover, Stuck;
  }

  lemma {:induction false} DecodeAllAppend(a: string, b: string)
    requires Terminated(a) && Settled(a)
    ensures DecodeAll(a + b) == DecodeAll(a) + DecodeAll(b)
    ensures Settled(a + b) <==> Settled(b)
    decreases |a|
  {
    hide Scan, Leftover, DecodeAll, Settled, Stuck;
    ScanAppend(a, b, Idle);
    DecodeAllStep(a);
    DecodeAllStep(b);
    DecodeAllStep(a + b);
    SettledStep(a);
    SettledStep(b);
    SettledStep(a + b);
    if Decode(a).Some? {
      var (block, rest) := Decode(a).value;
      DecodeAllAppend(rest, b);
      assert [block] + (DecodeAll(rest) + DecodeAll(b)) == [block] + DecodeAll(rest) + DecodeAll(b);
    } else {
      LeftoverAppend(a, b, Idle);
      ScanStuck(b, Leftover(a, Idle));
      assert [] + DecodeAll(b) == DecodeAll(b);
    }
  }

  lemma {:induction false} LeftoverLabel(s: string, p: Pending)
    requires p.Reading? ==> ValidLabel(p.kind)
    ensures Leftover(s, p).Reading? ==> ValidLabel(Leftover(s, p).kind)
    decreases |s|
  {
    hide ValidLabel;
    if s != "" {
      LeftoverLabel(After(s), Advance(Trim(Line(s)), p));
    }
  }

  // The rest of the body and the END line: no block for an idle scanner, one for the scanner that reads this block.
  lemma OpenBodyCompleted(p: Pending) returns (b: string, block: Block)
    requires !Stuck(p) && ValidLabel(p.kind)
    ensures Scan(b, Idle).None? && Scan(b, p) == Some((block, ""))
  {
    hide Scan, Base64.Extensible, Base64.Decode, ValidLabel, Lines;
    var body := Base64.Completion(p.body);
    var end := END + p.kind + DASHES;
    b := Lines(body) + (end + "\n" + "");
    block := Block(p.kind, Base64.Decode(p.body + body).value);
    ScanBody(body, end + "\n" + "", p.kind, p.body);
    EndLine(p.kind);
    ScanLine(end, "", Reading(p.kind, p.body + body));
    ScanLine(end, "", Idle);
    ScanNothing();
    LinesShort(body, end + "\n" + "");
    if body != "" {
      assert body[0] != '-' && BEGIN[0] == '-';
      ScanIdleLine(body, end + "\n" + "");
    }
  }

  lemma EndLine(kind: string)
    requires ValidLabel(kind)
    ensures
      var end := END + kind + DASHES;
      '\n' !in end && !IsBlank(end[|end| - 1]) && !(BEGIN <= end) && Advance(end, Idle) == Idle
  {
    var end := END + kind + DASHES;
    assert end[5] == 'E' && BEGIN[5] == 'B';
  }

  lemma ScanNothing()
    ensures Scan("", Idle).None?
  {
  }

  // A text that is not settled mixes with some text that holds no block at all.
  lemma {:induction false} UnsettledMixes(a: string) returns (b: string, block: Block)
    requires Terminated(a) && !Settled(a)
    ensures DecodeAll(b) == [] && DecodeAll(a + b) == DecodeAll(a) + [block]
    decreases |a|
  {
    hide Scan, Leftover, DecodeAll, Settled, Stuck, ValidLabel;
    SettledStep(a);
    DecodeAllStep(a);
    ScanAppend(a, "", Idle);
    if Decode(a).Some? {
      b, block := UnsettledMixes(Decode(a).value.1);
    } else {
      LeftoverLabel(a, Idle);
      StuckIdle();
      b, block := OpenBodyCompleted(Leftover(a, Idle));
      DecodeAllStep(b);
      DecodeEmpty();
    }
    ScanAppend(a, b, Idle);
    DecodeAllStep(a + b);
    if Decode(a).Some? {
      var (first, rest) := Decode(a).value;
      assert [first] + (DecodeAll(rest) + [block]) == [first] + DecodeAll(rest) + [block];
    }
  }

  lemma StuckIdle()
    ensures Stuck(Idle)
  {
  }

  /******* What printed and scanned texts look like *******/

  // Without one character.
  function Without(s: string, c: char): string {
    if s == "" then "" else (if s[0] == c then "" else [s[0]]) + Without(s[1..], c)
  }

  // A body is broken after every 64 characters and at its end, and nowhere else.
  lemma {:induction false} LinesBroken(s: string)
    requires '\n' !in s
    ensures Without(Lines(s), '\n') == s
    ensures forall i :: 0 <= i < |Lines(s)| ==> (Lines(s)[i] == '\n' <==> i % 65 == 64 || i == |Lines(s)| - 1)
  {
    if s != "" {
      if |s| <= 64 {
        WithoutLine(s, "");
        assert s + "\n" + "" == s + "\n" && s + "" == s;
      } else {
        LinesBroken(s[64..]);
        WithoutLine(s[..64], Lines(s[64..]));
        assert s == s[..64] + s[64..];
        var r, rest := Lines(s), Lines(s[64..]);
        assert r == s[..64] + "\n" + rest;
        assert rest != "" by { assert Without("", '\n') == ""; }
        forall i | 0 <= i < |r| ensures r[i] == '\n' <==> i % 65 == 64 || i == |r| - 1 {
          if i >= 65 {
            assert r[i] == rest[i - 65];
          }
        }
      }
    }
  }

  lemma {:induction false} WithoutLine(l: string, t: string)
    requires '\n' !in l
    ensures Without(l + "\n" + t, '\n') == l + Without(t, '\n')
  {
    var s := l + "\n" + t;
    if l == "" {
      assert s[1..] == t;
    } else {
      assert s[1..] == l[1..] + "\n" + t;
      WithoutLine(l[1..], t);
    }
  }

  // A block of one byte, as text.
  lemma EncodeReads(kind: string)
    ensures Encode(Block(kind, [102])) ==
      "-----BEGIN " + kind + "-----" + "\n" + "Zg==\n" + "-----END " + kind + "-----" + "\n"
  {
    Base64.VectorsEncode();
    assert Lines("Zg==") == "Zg==\n";
  }

  // Labels are words set apart by single hyphens or spaces.
  lemma LabelsRead()
    ensures ValidLabel("EC PRIVATE KEY") && ValidLabel("X-Y") && ValidLabel("")
    ensures !ValidLabel("A--B") && !ValidLabel("-A") && !ValidLabel("A ") && !ValidLabel("A- B") && !ValidLabel("A\tB")
  {
    var l := "A--B";
    assert l[1] == '-' && l[2] == '-';
    assert !SingleAt("A--B", 1) && !SingleAt("-A", 0) && !SingleAt("A ", 1) && !SingleAt("A- B", 1);
    assert "A\tB"[1] == '\t';
  }

  // A BEGIN line that is not followed by its END line does not hide the next block.
  lemma BeginRestarts(kind: string, b: Block, t: string)
    requires ValidLabel(kind) && ValidLabel(b.kind)
    ensures Decode("-----BEGIN " + kind + "-----" + "\n" + (Encode(b) + t)) == Some((b, t))
  {
    hide Scan, Encode, ValidLabel;
    ScanBegin(kind, Encode(b) + t, Idle);
    ScanEncoded(b, t, Reading(kind, ""));
  }

  // An END line under another label ends nothing.
  lemma OtherEnd(kind: string, other: string)
    requires ValidLabel(kind) && ValidLabel(other) && kind != other
    ensures Decode("-----BEGIN " + kind + "-----" + "\n" + ("-----END " + other + "-----" + "\n")).None?
  {
    hide Scan, ValidLabel;
    var end := END + other + DASHES;
    ScanBegin(kind, end + "\n", Idle);
    EndLine(other);
    assert end + "\n" + "" == end + "\n";
    ScanLine(end, "", Reading(kind, ""));
    if END + kind + DASHES == end { LabelOfEnd(kind, other); }
    ScanNothing();
  }

  lemma LabelOfEnd(kind: string, other: string)
    requires END + kind + DASHES == END + other + DASHES
    ensures kind == other
  {
    var a, b := END + kind + DASHES, END + other + DASHES;
    assert kind == a[|END|..|a| - |DASHES|] && other == b[|END|..|b| - |DASHES|];
  }

  /******* Line ends *******/

  // The text with something in front of every newline.
  function Padded(s: string, pad: string): string {
    if s == "" then "" else (if s[0] == '\n' then pad + "\n" else [s[0]]) + Padded(s[1..], pad)
  }

  ghost predicate Blanks(pad: string) {
    forall c :: c in pad ==> c == ' ' || c == '\t' || c == '\r'
  }

  lemma {:induction false} TrimPadded(l: string, pad: string)
    requires Blanks(pad)
    ensures Trim(l + pad) == Trim(l)
  {
    if pad == "" {
      assert l + pad == l;
    } else {
      var init := pad[..|pad| - 1];
      assert (l + pad)[..|l + pad| - 1] == l + init;
      assert pad[|pad| - 1] in pad;
      assert forall c :: c in init ==> c in pad;
      TrimPadded(l, init);
    }
  }

  lemma {:induction false} LinePadded(s: string, pad: string)
    requires Blanks(pad)
    ensures '\n' in s ==> Line(Padded(s, pad)) == Line(s) + pad && After(Padded(s, pad)) == Padded(After(s), pad)
    ensures '\n' !in s ==> Padded(s, pad) == s && After(s) == ""
  {
    if s != "" {
      if s[0] == '\n' {
        LineSplit(pad, Padded(s[1..], pad));
        assert Line(s) + pad == pad;
      } else {
        LinePadded(s[1..], pad);
        assert Padded(s, pad)[1..] == Padded(s[1..], pad);
        assert s == [s[0]] + s[1..];
      }
    }
  }

  lemma {:induction false} ScanPadded(s: string, p: Pending, pad: string)
    requires Blanks(pad)
    ensures Scan(Padded(s, pad), p) ==
      match Scan(s, p) case None => None case Some((b, rest)) => Some((b, Padded(rest, pad)))
    decreases |s|
  {
    hide Trim, Advance, Closes, Blanks;
    LinePadded(s, pad);
    if s != "" && '\n' in s {
      TrimPadded(Line(s), pad);
      assert Padded(s, pad) != "";
      if Closes(Trim(Line(s)), p).None? {
        ScanPadded(After(s), Advance(Trim(Line(s)), p), pad);
      }
    }
  }

  // Carriage returns or other blanks at the ends of lines change nothing.
  lemma {:induction false} DecodeAllPadded(s: string, pad: string)
    requires Blanks(pad)
    ensures DecodeAll(Padded(s, pad)) == DecodeAll(s)
    decreases |s|
  {
    hide Scan, Blanks;
    ScanPadded(s, Idle, pad);
    if Decode(s).Some? {
      DecodeAllPadded(Decode(s).value.1, pad);
    }
  }

  // Nor do blanks inside the lines of a body.
  lemma {:induction false} SqueezeIgnores(a: string, c: char, b: string)
    requires c == ' ' || c == '\t' || c == '\r'
    ensures Squeeze(a + [c] + b) == Squeeze(a + b)
  {
    var s := a + [c] + b;
    if a == "" {
      assert s[1..] == b && a + b == b;
    } else {
      assert s[1..] == a[1..] + [c] + b && (a + b)[1..] == a[1..] + b;
      SqueezeIgnores(a[1..], c, b);
    }
  }
}
