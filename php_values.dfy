/** PHP values as the registry builder handles them once JSON has been decoded,
    and the two PHP built-ins whose exact behaviour the pipeline depends on:
    the truthiness of strings and strcasecmp(). */
module PhpValues {

  datatype Option<+T> = None | Some(value: T)

  /** A decoded JSON document. Numbers are modelled as integers only. */
  datatype Json =
    | JNull
    | JBool(b: bool)
    | JInt(i: int)
    | JStr(s: string)
    | JList(items: seq<Json>)
    | JObject(fields: map<string, Json>)

  /** A composer.json manifest, which is also one version entry of a package. */
  type Manifest = map<string, Json>

  /** One package as packages.json lists it: version label -> manifest. */
  type Versions = map<string, Manifest>

  /** PHP truthiness of a string: only "" and "0" are falsy. */
  predicate StrTruthy(s: string) {
    s != "" && s != "0"
  }

  /** The byte-wise lower-casing strcasecmp() applies: ASCII letters only. */
  function ToLower(c: char): char {
    if 'A' <= c <= 'Z' then (c as int + 32) as char else c
  }

  function Lowered(s: string): (r: string)
    ensures |r| == |s|
    ensures forall i | 0 <= i < |s| :: r[i] == ToLower(s[i])
  {
    if s == [] then [] else [ToLower(s[0])] + Lowered(s[1..])
  }

  /** strcasecmp(a, b) == 0, compared character by character as the C loop does. */
  predicate SameIgnoringCase(a: string, b: string) {
    |a| == |b| && (a == [] || (ToLower(a[0]) == ToLower(b[0]) && SameIgnoringCase(a[1..], b[1..])))
  }

  /** The character-by-character comparison agrees with comparing the lower-cased strings. */
  lemma {:induction false} SameIgnoringCaseIff(a: string, b: string)
    ensures SameIgnoringCase(a, b) <==> Lowered(a) == Lowered(b)
  {
    if a != [] && b != [] {
      SameIgnoringCaseIff(a[1..], b[1..]);
      assert Lowered(a) == [ToLower(a[0])] + Lowered(a[1..]);
      assert Lowered(b) == [ToLower(b[0])] + Lowered(b[1..]);
      if Lowered(a) == Lowered(b) {
        assert Lowered(a)[1..] == Lowered(a[1..]);
        assert Lowered(b)[1..] == Lowered(b[1..]);
      }
    }
  }

  /** Case-insensitive equality is an equivalence relation. */
  lemma SameIgnoringCaseIsEquivalence(a: string, b: string, c: string)
    ensures SameIgnoringCase(a, a)
    ensures SameIgnoringCase(a, b) ==> SameIgnoringCase(b, a)
    ensures SameIgnoringCase(a, b) && SameIgnoringCase(b, c) ==> SameIgnoringCase(a, c)
  {
    SameIgnoringCaseIff(a, a);
    SameIgnoringCaseIff(a, b);
    SameIgnoringCaseIff(b, a);
    SameIgnoringCaseIff(b, c);
    SameIgnoringCaseIff(a, c);
  }
}
