/** Dynamically typed variable values as the Optimizely SDK hands them to the
    manager, the `as? [String]` cast the manager applies to them, and the
    lower-casing it uses before comparing category names. */
module Values {

  datatype Option<+T> = None | Some(value: T)

  /** A flag-variable value of static type `Any`.
      - `Str`: a Swift `String`.
      - `Array`: a Swift array of arbitrary values (`[Any]`).
      - `Dictionary`: an already decoded `[String: Any]`.
      - `OptimizelyJson`: an `OptimizelyJSON` object. The SDK's conversions are
        foreign code, so their outcomes are carried as fields: `jsonMap` is what
        `try? toMap()` yields, `decodedStringDict` is what decoding the object's
        `toString()` text as `[String: [String]]` yields (`None` when
        `toString`, the UTF-8 conversion or the decoder fails).
      - `Other`: any value of another type (a number, a boolean, ...). */
  datatype Value =
    | Str(s: string)
    | Array(items: seq<Value>)
    | Dictionary(entries: map<string, Value>)
    | OptimizelyJson(jsonMap: Option<map<string, Value>>,
                     decodedStringDict: Option<map<string, seq<string>>>)
    | Other

  /** Every item is a string. */
  ghost predicate AllStrings(items: seq<Value>) {
    forall i :: 0 <= i < |items| ==> items[i].Str?
  }

  /** The strings held by `items`, or `None` as soon as one item is not a string. */
  function StringsOf(items: seq<Value>): (r: Option<seq<string>>)
    ensures r.Some? <==> AllStrings(items)
    ensures r.Some? ==> |r.value| == |items|
    ensures r.Some? ==> forall i :: 0 <= i < |items| ==> items[i] == Str(r.value[i])
  {
    if items == [] then Some([])
    else if !items[0].Str? then None
    else
      match StringsOf(items[1..])
      case None => None
      case Some(rest) => Some([items[0].s] + rest)
  }

  /** The conditional cast `value as? [String]`: it succeeds exactly on an array
      all of whose items are strings (the empty array included) and then
      returns those strings in order. */
  function AsStringArray(v: Value): (r: Option<seq<string>>)
    ensures r.Some? <==> v.Array? && AllStrings(v.items)
    ensures r.Some? ==> |r.value| == |v.items|
    ensures r.Some? ==> forall i :: 0 <= i < |v.items| ==> v.items[i] == Str(r.value[i])
  {
    if v.Array? then StringsOf(v.items) else None
  }

  /** Swift's `[String]` value seen as a value of type `Any`. */
  function FromStrings(ss: seq<string>): (v: Value)
    ensures v.Array? && |v.items| == |ss|
    ensures forall i :: 0 <= i < |ss| ==> v.items[i] == Str(ss[i])
  {
    Array(seq(|ss|, i requires 0 <= i < |ss| => Str(ss[i])))
  }

  /** Casting a string array stored as `Any` back to `[String]` gives it back unchanged. */
  lemma CastRoundTrip(ss: seq<string>)
    ensures AsStringArray(FromStrings(ss)) == Some(ss)
  {
    var r := AsStringArray(FromStrings(ss));
    assert r.Some?;
    assert |r.value| == |ss|;
    forall i | 0 <= i < |ss| ensures r.value[i] == ss[i] {
      assert FromStrings(ss).items[i] == Str(r.value[i]);
    }
    assert r.value == ss;
  }

  /** The other direction: a value the cast accepts is exactly the array the
      cast's result would be stored as. */
  lemma CastInverse(v: Value)
    ensures AsStringArray(v).Some? ==> FromStrings(AsStringArray(v).value) == v
  {
  }

  /** Lower-cases one ASCII letter; every other character is kept. */
  function LowerChar(c: char): (d: char)
    ensures 'A' <= c <= 'Z' ==> 'a' <= d <= 'z' && d as int - c as int == 32
    ensures !('A' <= c <= 'Z') ==> d == c
    ensures !('A' <= d <= 'Z')
  {
    if 'A' <= c <= 'Z' then (c as int + 32) as char else c
  }

  /** `String.lowercased()`, restricted to ASCII letters: character by character. */
  function Lowercased(s: string): (r: string)
    ensures |r| == |s|
    ensures forall i :: 0 <= i < |s| ==> r[i] == LowerChar(s[i])
  {
    if s == [] then [] else [LowerChar(s[0])] + Lowercased(s[1..])
  }

  /** Lower-casing twice is lower-casing once. */
  lemma LowercasedIdempotent(s: string)
    ensures Lowercased(Lowercased(s)) == Lowercased(s)
  {
  }
}
