// The standard base64 encoding with padding, section 4 of RFC 4648.
module Base64 {
  import opened Common

  predicate IsAlphabet(c: char) {
    'A' <= c <= 'Z' || 'a' <= c <= 'z' || '0' <= c <= '9' || c == '+' || c == '/'
  }

  function Symbol(v: int): (c: char)
    requires 0 <= v < 64
    ensures IsAlphabet(c) && Value(c) == v
  {
    if v < 26 then ('A' as int + v) as char
    else if v < 52 then ('a' as int + (v - 26)) as char
    else if v < 62 then ('0' as int + (v - 52)) as char
    else if v == 62 then '+'
    else '/'
  }

  function Value(c: char): (v: int)
    requires IsAlphabet(c)
    ensures 0 <= v < 64
  {
    if 'A' <= c <= 'Z' then c as int - 'A' as int
    else if 'a' <= c <= 'z' then c as int - 'a' as int + 26
    else if '0' <= c <= '9' then c as int - '0' as int + 52
    else if c == '+' then 62
    else 63
  }

  predicate IsEncoded(s: string) {
    forall i :: 0 <= i < |s| ==> IsAlphabet(s[i]) || s[i] == '='
  }

  // Table 1 of RFC 4648, by character codes: upper case, lower case, digits, plus and slash.
  lemma AlphabetReads(v: int)
    requires 0 <= v < 64
    ensures Symbol(v) as int ==
      if v < 26 then 65 + v else if v < 52 then 71 + v else if v < 62 then v - 4 else if v == 62 then 43 else 47
  {
  }

  // Three bytes are four symbols.
  function Quantum(x: byte, y: byte, z: byte): (s: string)
    ensures |s| == 4 && forall i :: 0 <= i < 4 ==> IsAlphabet(s[i])
  {
    var a, b, c := x as int, y as int, z as int;
    [Symbol(a / 4), Symbol(a % 4 * 16 + b / 16), Symbol(b % 16 * 4 + c / 64), Symbol(c % 64)]
  }

  function Encode(d: Der): (s: string)
    ensures IsEncoded(s)
  {
    if d == [] then ""
    else if |d| == 1 then Quantum(d[0], 0, 0)[..2] + "=="
    else if |d| == 2 then Quantum(d[0], d[1], 0)[..3] + "="
    else Quantum(d[0], d[1], d[2]) + Encode(d[3..])
  }

  // Padding is accepted in the last quantum only; its unused low bits are ignored.
  function Decode(s: string): Option<Der> {
    if s == "" then Some([])
    else if |s| < 4 || !IsAlphabet(s[0]) || !IsAlphabet(s[1]) then None
    else
      var a, b := Value(s[0]), Value(s[1]);
      var first := (a * 4 + b / 16) as byte;
      if |s| == 4 && s[2] == '=' && s[3] == '=' then Some([first])
      else if !IsAlphabet(s[2]) then None
      else
        var c := Value(s[2]);
        var second := (b % 16 * 16 + c / 4) as byte;
        if |s| == 4 && s[3] == '=' then Some([first, second])
        else if !IsAlphabet(s[3]) then None
        else
          var third := (c % 4 * 64 + Value(s[3])) as byte;
          match Decode(s[4..])
          case None => None
          case Some(rest) => Some([first, second, third] + rest)
  }

  // The bytes a quantum stands for, from its first two, three and four symbols.
  lemma QuantumValues(x: byte, y: byte, z: byte)
    ensures
      var q := Quantum(x, y, z);
      var a, b, c, d := Value(q[0]), Value(q[1]), Value(q[2]), Value(q[3]);
      a * 4 + b / 16 == x as int && b % 16 * 16 + c / 4 == y as int && c % 4 * 64 + d == z as int
  {
    hide Symbol, Value;
  }

  // Four symbols in front of a text that decodes.
  lemma DecodeSymbols(s: string)
    requires |s| >= 4 && forall i :: 0 <= i < 4 ==> IsAlphabet(s[i])
    requires Decode(s[4..]).Some?
    ensures
      var a, b, c, d := Value(s[0]), Value(s[1]), Value(s[2]), Value(s[3]);
      Decode(s)
        == Some([(a * 4 + b / 16) as byte, (b % 16 * 16 + c / 4) as byte, (c % 4 * 64 + d) as byte]
          + Decode(s[4..]).value)
  {
    hide Value;
    assert s[2] != '=' && s[3] != '=';
  }

  lemma DecodeQuantum(x: byte, y: byte, z: byte, rest: string)
    requires Decode(rest).Some?
    ensures Decode(Quantum(x, y, z) + rest) == Some([x, y, z] + Decode(rest).value)
  {
    hide Quantum, Value, Decode, IsAlphabet;
    var s := Quantum(x, y, z) + rest;
    assert s[4..] == rest;
    QuantumValues(x, y, z);
    DecodeSymbols(s);
  }

  lemma DecodeOne(x: byte)
    ensures Decode(Quantum(x, 0, 0)[..2] + "==") == Some([x])
  {
    hide Quantum, Value;
    QuantumValues(x, 0, 0);
  }

  lemma DecodeTwo(x: byte, y: byte)
    ensures Decode(Quantum(x, y, 0)[..3] + "=") == Some([x, y])
  {
    hide Quantum, Value;
    QuantumValues(x, y, 0);
  }

  lemma {:induction false} DecodeEncode(d: Der)
    ensures Decode(Encode(d)) == Some(d)
  {
    hide Quantum, Decode;
    if |d| >= 3 {
      DecodeEncode(d[3..]);
      DecodeQuantum(d[0], d[1], d[2], Encode(d[3..]));
      assert d == [d[0], d[1], d[2]] + d[3..];
    } else if |d| == 2 {
      DecodeTwo(d[0], d[1]);
      assert d == [d[0], d[1]];
    } else if |d| == 1 {
      DecodeOne(d[0]);
      assert d == [d[0]];
    } else {
      DecodeNothing();
    }
  }

  lemma DecodeNothing()
    ensures Decode("") == Some([])
  {
  }

  // The test vectors of section 10 of RFC 4648 for "f", "fo", "foo" and "foobar".
  lemma VectorsEncode()
    ensures Encode([102]) == "Zg=="
    ensures Encode([102, 111]) == "Zm8="
    ensures Encode([102, 111, 111]) == "Zm9v"
    ensures Encode([102, 111, 111, 98, 97, 114]) == "Zm9vYmFy"
  {
    hide Quantum;
    VectorQuanta();
    var foo, foobar: Der := [102, 111, 111], [102, 111, 111, 98, 97, 114];
    assert foo[3..] == [] && foobar[3..] == [98, 97, 114] && foobar[3..][3..] == [];
    assert Encode([]) == "";
  }

  lemma VectorQuanta()
    ensures Quantum(102, 111, 111) == "Zm9v" && Quantum(98, 97, 114) == "YmFy"
    ensures Quantum(102, 111, 0)[..3] == "Zm8" && Quantum(102, 0, 0)[..2] == "Zg"
  {
  }

  /******* What can still become a decodable text *******/

  // Whole quanta of symbols, then the beginning of one that may be padded.
  predicate Extensible(s: string) {
    if |s| < 4 then
      && (forall i :: 0 <= i < |s| && i < 2 ==> IsAlphabet(s[i]))
      && (|s| == 3 ==> IsAlphabet(s[2]) || s[2] == '=')
    else
      && IsAlphabet(s[0]) && IsAlphabet(s[1])
      && if |s| == 4 && s[3] == '=' then IsAlphabet(s[2]) || s[2] == '='
         else IsAlphabet(s[2]) && IsAlphabet(s[3]) && Extensible(s[4..])
  }

  lemma {:induction false} DecodableExtends(s: string, t: string)
    requires Decode(s + t).Some?
    ensures Extensible(s)
  {
    if |s| >= 4 && IsAlphabet(s[3]) {
      assert (s + t)[4..] == s[4..] + t;
      DecodableExtends(s[4..], t);
    }
  }

  lemma {:induction false} Completion(s: string) returns (t: string)
    requires Extensible(s)
    ensures IsEncoded(t) && |t| <= 3 && Decode(s + t).Some?
  {
    if |s| == 0 {
      t := "";
    } else if |s| == 1 {
      t := "A==";
    } else if |s| == 2 {
      t := "==";
    } else if |s| == 3 {
      t := "=";
    } else if s[3] == '=' {
      t := "";
      assert s + t == s;
    } else {
      t := Completion(s[4..]);
      assert (s + t)[4..] == s[4..] + t;
    }
  }

  lemma {:induction false} ExtensiblePrefix(s: string, t: string)
    requires Extensible(s + t)
    ensures Extensible(s)
  {
    var u := Completion(s + t);
    assert s + t + u == s + (t + u);
    DecodableExtends(s, t + u);
  }

  // Exactly the texts that some continuation makes decodable.
  lemma ExtensibleExact(s: string)
    ensures Extensible(s) <==> exists t :: Decode(s + t).Some?
  {
    if Extensible(s) {
      var t := Completion(s);
    } else {
      forall t ensures Decode(s + t).None? {
        if Decode(s + t).Some? { DecodableExtends(s, t); }
      }
    }
  }
}
