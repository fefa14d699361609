/**
 * The extractor strategies: reading a query parameter, trying several parameter names in turn,
 * decoding, keeping the text before the last colon and the text after the last slash.
 */
module Extractors {
  import opened JsCore
  import opened UriDecoding

  /**
   * A URL as the WHATWG parser leaves it: `host` includes a non-default port, and `query` holds
   * the name/value pairs of `searchParams` in order, each already percent-decoded once.
   */
  datatype Url = Url(host: string, pathname: string, query: seq<(string, string)>)

  /** `searchParams.get(key)`: the value of the first pair named `key`, or null when there is none. */
  function GetParam(query: seq<(string, string)>, key: string): (v: JsValue)
    ensures v.Null? <==> forall j :: 0 <= j < |query| ==> query[j].0 != key
    ensures v.Str? ==>
      exists i :: 0 <= i < |query| && query[i] == (key, v.s) && forall j :: 0 <= j < i ==> query[j].0 != key
    ensures v.Null? || v.Str?
  {
    var i := KeyIndex(query, key);
    if i < 0 then Null else Str(query[i].1)
  }

  /** `find(keys, searchParams.get)`: the first truthy `get(key)` in key order, or undefined. */
  function FirstPresent(query: seq<(string, string)>, keys: seq<string>): (v: JsValue)
    ensures v.Undefined? || Truthy(v)
  {
    if keys == [] then Undefined
    else if Truthy(GetParam(query, keys[0])) then GetParam(query, keys[0])
    else FirstPresent(query, keys[1..])
  }

  /** `find` in key mode: the loop over the keys, stopping at the first truthy value. */
  method FindByKeys(query: seq<(string, string)>, keys: seq<string>) returns (v: JsValue)
    ensures v == FirstPresent(query, keys)
  {
    var i := 0;
    while i < |keys|
      invariant 0 <= i <= |keys|
      invariant FirstPresent(query, keys) == FirstPresent(query, keys[i..])
    {
      assert keys[i..][1..] == keys[i + 1..];
      var result := GetParam(query, keys[i]);
      if Truthy(result) {
        return result;
      }
      i := i + 1;
    }
    v := Undefined;
  }

  /** The first key whose value is truthy decides: every earlier key was absent or empty. */
  lemma {:induction false} FirstPresentAt(query: seq<(string, string)>, keys: seq<string>, i: nat)
    requires i < |keys| && Truthy(GetParam(query, keys[i]))
    requires forall j :: 0 <= j < i ==> !Truthy(GetParam(query, keys[j]))
    ensures FirstPresent(query, keys) == GetParam(query, keys[i])
  {
    if i > 0 {
      assert !Truthy(GetParam(query, keys[0]));
      FirstPresentAt(query, keys[1..], i - 1);
    }
  }

  /** With no truthy value among the keys (in particular with no keys) the result is undefined. */
  lemma {:induction false} FirstPresentNone(query: seq<(string, string)>, keys: seq<string>)
    requires forall j :: 0 <= j < |keys| ==> !Truthy(GetParam(query, keys[j]))
    ensures FirstPresent(query, keys) == Undefined
  {
    if keys != [] {
      assert !Truthy(GetParam(query, keys[0]));
      FirstPresentNone(query, keys[1..]);
    }
  }

  /** `stripFromColon(s)`: the text before the last `:`, and "" when there is none (`substring(0, -1)`). */
  function StripFromColon(s: string): (r: string)
    ensures ':' !in s ==> r == ""
    ensures ':' in s ==> r <= s && |r| < |s| && s[|r|] == ':' && ':' !in s[|r| + 1..]
  {
    var i := LastIndexOf(s, [':']);
    LastIndexOfChar(s, ':');
    if i < 0 then "" else s[..i]
  }

  /** The cut is at the last colon: whatever index holds a colon with none after it, the result is the text before it. */
  lemma StripFromColonAt(s: string, i: nat)
    requires i < |s| && s[i] == ':' && ':' !in s[i + 1..]
    ensures StripFromColon(s) == s[..i]
  {
    var r := StripFromColon(s);
    assert ':' in s;
    assert forall j :: |r| < j < |s| ==> s[j] == s[|r| + 1..][j - |r| - 1];
  }

  /** `pickFromLastSlash(s)`: the text after the last `/`, and all of `s` when there is none. */
  function PickFromLastSlash(s: string): (r: string)
    ensures '/' !in r
    ensures |r| <= |s| && r == s[|s| - |r|..]
    ensures '/' !in s ==> r == s
    ensures '/' in s ==> s[|s| - |r| - 1] == '/'
  {
    var i := LastIndexOf(s, ['/']);
    LastIndexOfChar(s, '/');
    s[i + 1..]
  }

  /** The cut is after the last slash: whatever index holds a slash with none after it, the result is the text after it. */
  lemma PickFromLastSlashAt(s: string, i: nat)
    requires i < |s| && s[i] == '/' && '/' !in s[i + 1..]
    ensures PickFromLastSlash(s) == s[i + 1..]
  {
    var r := PickFromLastSlash(s);
    assert '/' in s;
    assert forall j :: i < j < |s| ==> s[j] == s[i + 1..][j - i - 1];
  }

  /** The extractor strategies of the registry, as a tagged variant. */
  datatype Extractor =
    | SearchParam(key: string)         // `searchParam(key)`
    | FirstParam(keys: seq<string>)    // `({ searchParams }) => find(keys, searchParams.get)`
    | Pathname                         // `({ pathname }) => pathname`
    | Decode(inner: Extractor)         // `url => decode(inner(url))`
    | StripColon(inner: Extractor)     // `url => stripFromColon(inner(url))`
    | PickLastSlash(inner: Extractor)  // `url => pickFromLastSlash(inner(url))`

  /**
   * The string a `(s = '') => s.substring(...)` helper works on: undefined takes the default "",
   * a string is itself, and null or false throw a TypeError because they have no `substring`.
   */
  function SubstringReceiver(v: JsValue): (r: Result<string>)
    ensures v.Str? ==> r == Ok(v.s)
    ensures r.Err? <==> v.Null? || v.False?
  {
    match v
    case Str(s) => Ok(s)
    case Undefined => Ok("")
    case _ => Err(TypeError)
  }

  /**
   * The argument `decode = (s = '') => decodeURIComponent(s)` decodes: undefined takes the
   * default "", anything else is converted with `String`, so null becomes "null".
   */
  function DecodeArgument(v: JsValue): (r: string)
    ensures v.Str? ==> r == v.s
  {
    if v.Undefined? then "" else ToJsString(v)
  }

  /** Runs an extractor on a URL: the value it yields, or the exception it throws. */
  function Eval(e: Extractor, url: Url): (r: Result<JsValue>)
    ensures r.Ok? ==> !r.value.False?
    ensures r.Ok? && (e.Decode? || e.StripColon? || e.PickLastSlash? || e.Pathname?) ==> r.value.Str?
  {
    match e
    case SearchParam(k) => Ok(GetParam(url.query, k))
    case FirstParam(ks) => Ok(FirstPresent(url.query, ks))
    case Pathname => Ok(Str(url.pathname))
    case Decode(inner) =>
      (match Eval(inner, url)
       case Err(x) => Err(x)
       case Ok(v) =>
         match DecodeURIComponent(DecodeArgument(v))
         case Ok(t) => Ok(Str(t))
         case Err(x) => Err(x))
    case StripColon(inner) =>
      (match Eval(inner, url)
       case Err(x) => Err(x)
       case Ok(v) =>
         match SubstringReceiver(v)
         case Ok(s) => Ok(Str(StripFromColon(s)))
         case Err(x) => Err(x))
    case PickLastSlash(inner) =>
      (match Eval(inner, url)
       case Err(x) => Err(x)
       case Ok(v) =>
         match SubstringReceiver(v)
         case Ok(s) => Ok(Str(PickFromLastSlash(s)))
         case Err(x) => Err(x))
  }

  /** `searchParam(key)` yields a truthy value exactly when the first `key` pair has a non-empty value. */
  lemma SearchParamTruthy(url: Url, key: string)
    ensures Eval(SearchParam(key), url).Ok?
    ensures Truthy(Eval(SearchParam(key), url).value) <==>
      exists i :: 0 <= i < |url.query| && url.query[i].0 == key && url.query[i].1 != "" &&
        forall j :: 0 <= j < i ==> url.query[j].0 != key
  {
    var i := KeyIndex(url.query, key);
    if i >= 0 {
      forall i' | 0 <= i' < |url.query| && url.query[i'].0 == key &&
        forall j :: 0 <= j < i' ==> url.query[j].0 != key
        ensures i' == i
      {
      }
    }
  }

  /** The parameter decoded: exactly one more decoding pass over the value `searchParams` holds. */
  lemma DecodedParam(url: Url, key: string, value: string)
    requires GetParam(url.query, key) == Str(value)
    ensures Eval(Decode(SearchParam(key)), url) ==
      match DecodeURIComponent(value)
      case Ok(t) => Ok(Str(t))
      case Err(x) => Err(x)
  {
  }

  /** The parameter cut at its last colon; with no colon at all the result is the empty string. */
  lemma StrippedParam(url: Url, key: string, value: string)
    requires GetParam(url.query, key) == Str(value)
    ensures Eval(StripColon(SearchParam(key)), url) == Ok(Str(StripFromColon(value)))
    ensures ':' !in value ==> !Truthy(Eval(StripColon(SearchParam(key)), url).value)
  {
  }

  /** The path extractor: the text after the last `/` of the pathname, decoded once. */
  lemma LastSegmentDecoded(url: Url)
    ensures Eval(Decode(PickLastSlash(Pathname)), url) ==
      match DecodeURIComponent(PickFromLastSlash(url.pathname))
      case Ok(t) => Ok(Str(t))
      case Err(x) => Err(x)
  {
    var last := PickFromLastSlash(url.pathname);
    assert Eval(Pathname, url) == Ok(Str(url.pathname));
    assert SubstringReceiver(Str(url.pathname)) == Ok(url.pathname);
    assert Eval(PickLastSlash(Pathname), url) == Ok(Str(last));
    assert DecodeArgument(Str(last)) == last;
  }
}
