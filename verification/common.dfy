// Shared vocabulary. A byte string of the program (PEM text, Secret data, hash
// pre-images) is a `string` holding one character per byte; DER, which is
// binary and is base64-encoded, is a sequence of `byte`.
module Common {

  datatype Option<+T> = None | Some(value: T)

  datatype Result<+T, +E> = Success(value: T) | Failure(error: E)

  newtype byte = x: int | 0 <= x < 256

  type Der = seq<byte>

  ghost predicate Injective<A(!new), B(!new)>(f: A -> B) {
    forall x, y :: f(x) == f(y) ==> x == y
  }

  // Indexing a Go map: an absent key reads as the empty value.
  function Lookup<K>(m: map<K, string>, k: K): string {
    if k in m then m[k] else ""
  }

  ghost predicate Distinct<T>(s: seq<T>) {
    forall i, j :: 0 <= i < j < |s| ==> s[i] != s[j]
  }

  predicate HasSuffix(s: string, suffix: string) {
    |suffix| <= |s| && s[|s| - |suffix|..] == suffix
  }

  // strings.Join
  function Join(parts: seq<string>, separator: string): string {
    if parts == [] then ""
    else if |parts| == 1 then parts[0]
    else parts[0] + separator + Join(parts[1..], separator)
  }

  function Flatten<T>(ss: seq<seq<T>>): seq<T> {
    if ss == [] then [] else ss[0] + Flatten(ss[1..])
  }
}
