// The length-prefixed pre-images that internal/controller/hash.go and
// internal/controller/tencentcert/issuer.go feed to SHA-256.
module Canonical {
  import opened Common

  /******* Decimal numerals *******/

  function Digit(d: nat): char
    requires d < 10
  {
    ('0' as int + d) as char
  }

  function Decimal(n: nat): (s: string)
    ensures s != []
    ensures forall i :: 0 <= i < |s| ==> '0' <= s[i] <= '9'
  {
    if n < 10 then [Digit(n)] else Decimal(n / 10) + [Digit(n % 10)]
  }

  lemma {:induction false} DecimalInjective(m: nat, n: nat)
    requires Decimal(m) == Decimal(n)
    ensures m == n
  {
    var s, t := Decimal(m), Decimal(n);
    assert s[|s| - 1] == t[|t| - 1];
    assert m % 10 == n % 10;
    if m >= 10 && n >= 10 {
      assert s[..|s| - 1] == Decimal(m / 10) && t[..|t| - 1] == Decimal(n / 10);
      DecimalInjective(m / 10, n / 10);
    }
  }

  // What a text of decimal digits stands for.
  function NumberOf(s: string): int {
    if s == "" then 0 else 10 * NumberOf(s[..|s| - 1]) + (s[|s| - 1] as int - '0' as int)
  }

  // A numeral stands for its number and has no leading zero.
  lemma {:induction false} DecimalReads(n: nat)
    ensures NumberOf(Decimal(n)) == n
    ensures n > 0 ==> Decimal(n)[0] != '0'
  {
    if n < 10 {
      assert Decimal(n)[..0] == "";
    } else {
      DecimalReads(n / 10);
      assert Decimal(n)[..|Decimal(n)| - 1] == Decimal(n / 10);
    }
  }

  /******* Fields *******/

  // `%d:` of the length, then the bytes.
  function Field(p: string): (f: string)
    ensures |f| > |p|
  {
    Decimal(|p|) + ":" + p
  }

  // The first colon splits the text.
  lemma ColonSplit(a: string, b: string, x: string, y: string)
    requires ':' !in a && ':' !in b && a + ":" + x == b + ":" + y
    ensures a == b && x == y
  {
    var s := a + ":" + x;
    assert s[|a|] == ':' && s[|b|] == ':';
    assert |a| == |b|;
    assert a == s[..|a|] && b == s[..|b|];
    assert x == s[|a| + 1..] && y == s[|b| + 1..];
  }

  // A field is self-delimiting: whatever follows, the field and the rest can be told apart.
  lemma FieldCancel(p: string, q: string, x: string, y: string)
    requires Field(p) + x == Field(q) + y
    ensures p == q && x == y
  {
    hide Decimal;
    var a, b := Decimal(|p|), Decimal(|q|);
    assert a + ":" + (p + x) == Field(p) + x;
    assert b + ":" + (q + y) == Field(q) + y;
    ColonSplit(a, b, p + x, q + y);
    DecimalInjective(|p|, |q|);
    assert p == (p + x)[..|p|] && q == (q + y)[..|q|];
    assert x == (p + x)[|p|..] && y == (q + y)[|q|..];
  }

  function SourcePreimage(cert: string, key: string, chain: string): string {
    Field(cert) + Field(key) + Field(chain)
  }

  lemma SourcePreimageInjective(cert: string, key: string, chain: string, cert': string, key': string, chain': string)
    requires SourcePreimage(cert, key, chain) == SourcePreimage(cert', key', chain')
    ensures cert == cert' && key == key' && chain == chain'
  {
    hide Field;
    assert SourcePreimage(cert, key, chain) == Field(cert) + (Field(key) + Field(chain));
    assert SourcePreimage(cert', key', chain') == Field(cert') + (Field(key') + Field(chain'));
    FieldCancel(cert, cert', Field(key) + Field(chain), Field(key') + Field(chain'));
    FieldCancel(key, key', Field(chain), Field(chain'));
    assert Field(chain) + [] == Field(chain) && Field(chain') + [] == Field(chain');
    FieldCancel(chain, chain', [], []);
  }

  // The running hash is a parameter: what the loop has written so far is its pre-image.
  method SourceHash(digest: string -> string, cert: string, key: string, chain: string) returns (h: string)
    ensures h == digest(SourcePreimage(cert, key, chain))
  {
    var parts := [cert, key, chain];
    var written := "";
    for i := 0 to |parts|
      invariant i == 0 ==> written == ""
      invariant i == 1 ==> written == Field(cert)
      invariant i == 2 ==> written == Field(cert) + Field(key)
      invariant i == 3 ==> written == SourcePreimage(cert, key, chain)
    {
      written := written + Decimal(|parts[i]|) + ":";
      written := written + parts[i];
    }
    h := digest(written);
  }

  // "%d:%s:%d:%s" of the credential id and key.
  function CredentialPreimage(id: string, key: string): string {
    Field(id) + ":" + Field(key)
  }

  lemma CredentialPreimageInjective(id: string, key: string, id': string, key': string)
    requires CredentialPreimage(id, key) == CredentialPreimage(id', key')
    ensures id == id' && key == key'
  {
    hide Field;
    assert CredentialPreimage(id, key) == Field(id) + (":" + Field(key));
    assert CredentialPreimage(id', key') == Field(id') + (":" + Field(key'));
    FieldCancel(id, id', ":" + Field(key), ":" + Field(key'));
    assert Field(key) + [] == (":" + Field(key))[1..] == (":" + Field(key'))[1..] == Field(key') + [];
    FieldCancel(key, key', [], []);
  }

  /******* Byte-lexicographic order *******/

  predicate Below(a: string, b: string) {
    b != [] && (a == [] || a[0] < b[0] || (a[0] == b[0] && Below(a[1..], b[1..])))
  }

  lemma {:induction false} BelowTotal(a: string, b: string)
    ensures a == b || Below(a, b) || Below(b, a)
    ensures !(Below(a, b) && Below(b, a)) && !Below(a, a)
  {
    if a != [] && b != [] && a[0] == b[0] {
      BelowTotal(a[1..], b[1..]);
      assert a == [a[0]] + a[1..] && b == [b[0]] + b[1..];
    }
    if a != [] {
      BelowTotal(a[1..], a[1..]);
    }
  }

  lemma {:induction false} BelowTransitive(a: string, b: string, c: string)
    requires Below(a, b) && Below(b, c)
    ensures Below(a, c)
  {
    if a != [] && a[0] == b[0] == c[0] {
      BelowTransitive(a[1..], b[1..], c[1..]);
    }
  }

  // The byte at the first difference decides, and a prefix comes first.
  lemma {:induction false} BelowAtDifference(a: string, b: string)
    ensures Below(a, b) <==> exists i :: 0 <= i <= |a| && i < |b| && a[..i] == b[..i] && (i == |a| || a[i] < b[i])
  {
    if a != [] && b != [] && a[0] == b[0] {
      BelowAtDifference(a[1..], b[1..]);
      if Below(a, b) {
        var i :| 0 <= i <= |a[1..]| && i < |b[1..]| && a[1..][..i] == b[1..][..i]
          && (i == |a[1..]| || a[1..][i] < b[1..][i]);
        assert a[..i + 1] == [a[0]] + a[1..][..i] == b[..i + 1];
      } else {
        forall i | 0 <= i <= |a| && i < |b| && a[..i] == b[..i]
          ensures i != |a| && a[i] >= b[i]
        {
          if i > 0 {
            assert a[1..][..i - 1] == a[..i][1..] == b[..i][1..] == b[1..][..i - 1];
          }
        }
      }
    } else if b != [] {
      assert a[..0] == b[..0];
      if !Below(a, b) {
        forall i | 0 < i <= |a| && i < |b| ensures a[..i] != b[..i] {
          assert a[..i][0] == a[0] && b[..i][0] == b[0];
        }
      }
    }
  }

  ghost predicate Ascending(s: seq<string>) {
    forall i, j :: 0 <= i < j < |s| ==> Below(s[i], s[j])
  }

  // Where sort.Strings puts one more key (keys of a map never repeat).
  function Insert(k: string, s: seq<string>): seq<string> {
    if s == [] || Below(k, s[0]) then [k] + s else [s[0]] + Insert(k, s[1..])
  }

  lemma {:induction false} InsertAscending(k: string, s: seq<string>)
    requires Ascending(s) && k !in s
    ensures Ascending(Insert(k, s))
    ensures forall x :: x in Insert(k, s) <==> x == k || x in s
  {
    if s == [] {
    } else if Below(k, s[0]) {
      forall j | 0 <= j < |s| ensures Below(k, s[j]) {
        if j > 0 { BelowTransitive(k, s[0], s[j]); }
      }
    } else {
      BelowTotal(k, s[0]);
      InsertAscending(k, s[1..]);
      forall x | x in Insert(k, s[1..]) ensures Below(s[0], x) {
        assert x == k || x in s[1..];
      }
    }
  }

  function SortStrings(s: seq<string>): seq<string> {
    if s == [] then [] else Insert(s[0], SortStrings(s[1..]))
  }

  lemma {:induction false} SortStringsAscending(s: seq<string>)
    requires Distinct(s)
    ensures Ascending(SortStrings(s))
    ensures forall x :: x in SortStrings(s) <==> x in s
  {
    if s != [] {
      SortStringsAscending(s[1..]);
      InsertAscending(s[0], SortStrings(s[1..]));
    }
  }

  lemma AscendingTail(s: seq<string>)
    requires Ascending(s) && s != []
    ensures forall x :: x in s[1..] <==> x in s && x != s[0]
  {
    BelowTotal(s[0], s[0]);
    assert s == [s[0]] + s[1..];
    assert forall i :: 0 <= i < |s[1..]| ==> Below(s[0], s[1..][i]);
  }

  // A set of keys has one ascending listing, so the enumeration order cannot matter.
  lemma {:induction false} AscendingUnique(s: seq<string>, t: seq<string>)
    requires Ascending(s) && Ascending(t)
    requires forall x :: x in s <==> x in t
    ensures s == t
  {
    assert s != [] ==> s[0] in s;
    assert t != [] ==> t[0] in t;
    if s != [] && t != [] {
      if s[0] != t[0] {
        assert t[0] in s && s[0] in t;
        BelowTotal(s[0], t[0]);
        assert false;
      }
      AscendingTail(s);
      AscendingTail(t);
      AscendingUnique(s[1..], t[1..]);
      assert s == [s[0]] + s[1..] && t == [t[0]] + t[1..];
    }
  }

  /******* Secret data *******/

  type Data = map<string, string>

  ghost predicate ListsKeys(keys: seq<string>, data: Data) {
    Ascending(keys) && forall k :: k in keys <==> k in data
  }

  // "%d:%s:%d:" of the key and the value's length, then the value, key after key.
  function Entries(keys: seq<string>, data: Data): string
    requires forall k :: k in keys ==> k in data
  {
    if keys == [] then "" else Field(keys[0]) + ":" + Field(data[keys[0]]) + Entries(keys[1..], data)
  }

  // Listing the keys of a finite map always succeeds.
  lemma {:induction false} KeysListed(data: Data)
    ensures exists keys :: ListsKeys(keys, data)
    decreases |data|
  {
    if data == map[] {
      assert ListsKeys([], data);
    } else {
      var k :| k in data;
      var rest := data - {k};
      assert rest.Keys == data.Keys - {k};
      KeysListed(rest);
      var sorted :| ListsKeys(sorted, rest);
      InsertAscending(k, sorted);
      assert ListsKeys(Insert(k, sorted), data);
    }
  }

  ghost function SortedKeys(data: Data): (keys: seq<string>)
    ensures ListsKeys(keys, data)
  {
    KeysListed(data);
    var keys :| ListsKeys(keys, data);
    keys
  }

  ghost function DataPreimage(data: Data): string {
    Entries(SortedKeys(data), data)
  }

  lemma WriteEntry(written: string, keys: seq<string>, data: Data, i: nat)
    requires i < |keys| && forall k :: k in keys ==> k in data
    ensures
      var k, v := keys[i], data[keys[i]];
      written + (Decimal(|k|) + ":" + k + ":" + Decimal(|v|) + ":") + v + Entries(keys[i + 1..], data)
        == written + Entries(keys[i..], data)
  {
    var k, v, rest := keys[i], data[keys[i]], Entries(keys[i + 1..], data);
    assert keys[i..][0] == keys[i] && keys[i..][1..] == keys[i + 1..];
    var entry := Decimal(|k|) + ":" + k + ":" + Decimal(|v|) + ":";
    assert entry + v + rest == Field(k) + ":" + Field(v) + rest;
    assert written + entry + v + rest == written + (entry + v + rest);
  }

  // `range` over a map: every key once, in an order nobody chose.
  method RangeKeys(data: Data) returns (keys: seq<string>)
    ensures Distinct(keys) && forall k :: k in keys <==> k in data
  {
    keys := [];
    var left := data.Keys;
    while left != {}
      invariant left <= data.Keys
      invariant forall k :: k in keys <==> k in data.Keys - left
      invariant Distinct(keys)
      decreases left
    {
      var k :| k in left;
      assert k !in keys;
      keys := keys + [k];
      left := left - {k};
    }
  }

  // Keys in any order of enumeration, sorted, then written out.
  method HashSecretData(digest: string -> string, data: Data) returns (h: string)
    ensures h == digest(DataPreimage(data))
  {
    var keys := RangeKeys(data);
    SortStringsAscending(keys);
    keys := SortStrings(keys);
    AscendingUnique(keys, SortedKeys(data));
    var written := "";
    for i := 0 to |keys|
      invariant written + Entries(keys[i..], data) == DataPreimage(data)
    {
      WriteEntry(written, keys, data, i);
      var k := keys[i];
      written := written + (Decimal(|k|) + ":" + k + ":" + Decimal(|data[k]|) + ":");
      written := written + data[k];
    }
    assert keys[|keys|..] == [] && written + "" == written;
    h := digest(written);
  }

  lemma EntryCancel(k: string, v: string, r: string, k': string, v': string, r': string)
    requires Field(k) + ":" + Field(v) + r == Field(k') + ":" + Field(v') + r'
    ensures k == k' && v == v' && r == r'
  {
    hide Field;
    var x, x' := Field(v) + r, Field(v') + r';
    assert Field(k) + ":" + Field(v) + r == Field(k) + (":" + x);
    assert Field(k') + ":" + Field(v') + r' == Field(k') + (":" + x');
    FieldCancel(k, k', ":" + x, ":" + x');
    assert x == (":" + x)[1..] && x' == (":" + x')[1..];
    FieldCancel(v, v', r, r');
  }

  lemma {:induction false} EntriesInjective(keys: seq<string>, data: Data, keys': seq<string>, data': Data)
    requires forall k :: k in keys ==> k in data
    requires forall k :: k in keys' ==> k in data'
    requires Entries(keys, data) == Entries(keys', data')
    ensures keys == keys'
    ensures forall k :: k in keys ==> data[k] == data'[k]
  {
    if keys != [] && keys' != [] {
      var k, k' := keys[0], keys'[0];
      var v, v' := data[k], data'[k'];
      var r, r' := Entries(keys[1..], data), Entries(keys'[1..], data');
      EntryCancel(k, v, r, k', v', r');
      EntriesInjective(keys[1..], data, keys'[1..], data');
      assert keys == [k] + keys[1..] && keys' == [k'] + keys'[1..];
    }
  }

  lemma DataPreimageInjective(data: Data, data': Data)
    requires DataPreimage(data) == DataPreimage(data')
    ensures data == data'
  {
    EntriesInjective(SortedKeys(data), data, SortedKeys(data'), data');
    assert forall k :: k in data <==> k in SortedKeys(data);
  }

  // Every ascending listing of the keys writes the same pre-image.
  lemma DataPreimageCanonical(keys: seq<string>, data: Data)
    requires ListsKeys(keys, data)
    ensures Entries(keys, data) == DataPreimage(data)
  {
    AscendingUnique(keys, SortedKeys(data));
  }

  // The three pre-images at a value each, as text.
  lemma SourcePreimageReads()
    ensures SourcePreimage("ab", "", "c:") == "2:ab0:2:c:"
  {
    hide Field;
    FieldReads("ab");
    FieldReads("");
    FieldReads("c:");
  }

  lemma CredentialPreimageReads()
    ensures CredentialPreimage("id", "key") == "2:id:3:key"
  {
    hide Field;
    FieldReads("id");
    FieldReads("key");
  }

  lemma DataPreimageReads()
    ensures DataPreimage(map["b" := "x", "a" := ""]) == "1:a:0:1:b:1:x"
  {
    hide Field;
    var data: Data, keys := map["b" := "x", "a" := ""], ["a", "b"];
    assert "a"[0] < "b"[0];
    assert Below("a", "b");
    assert ListsKeys(keys, data);
    hide Below;
    DataPreimageCanonical(keys, data);
    FieldReads("a");
    FieldReads("b");
    FieldReads("");
    FieldReads("x");
    assert keys[1..] == ["b"] && keys[1..][1..] == [];
  }

  lemma FieldReads(p: string)
    requires |p| < 10
    ensures Field(p) == [Digit(|p|)] + ":" + p
    ensures Digit(0) == '0' && Digit(1) == '1' && Digit(2) == '2' && Digit(3) == '3'
  {
  }
}
