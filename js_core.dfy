/** The JavaScript values, exceptions and string primitives the redirect engine relies on. */
module JsCore {

  datatype Option<+T> = None | Some(value: T)

  /** The exceptions the engine can raise; none is caught inside it. */
  datatype Error =
    | TypeError       // `new URL` on an unparsable string, or `.substring` called on null or false
    | URIError        // `decodeURIComponent` on a `%` that does not start two hex digits
    | NonAsciiEscape  // an escape of an octet >= 0x80: UTF-8 decoding is outside this model

  /** A computation that either yields a value or throws. */
  datatype Result<+T> = Ok(value: T) | Err(error: Error)

  /** The JavaScript values an extractor, a path test or `find` can yield. */
  datatype JsValue = Str(s: string) | Null | False | Undefined

  /** JavaScript truthiness restricted to the values above: only a non-empty string is truthy. */
  predicate Truthy(v: JsValue) {
    v.Str? && v.s != ""
  }

  /** `String(v)`, the conversion `decodeURIComponent` applies to its argument. */
  function ToJsString(v: JsValue): string {
    match v
    case Str(s) => s
    case Null => "null"
    case False => "false"
    case Undefined => "undefined"
  }

  /** The names of a list of (name, value) pairs, in order. */
  function Names<V>(pairs: seq<(string, V)>): (ns: seq<string>)
    ensures |ns| == |pairs| && forall i :: 0 <= i < |pairs| ==> ns[i] == pairs[i].0
  {
    seq(|pairs|, i requires 0 <= i < |pairs| => pairs[i].0)
  }

  /** `xs.map(f)`: `f` applied to every element, in order. */
  function MapSeq<A, B>(f: A -> B, xs: seq<A>): (ys: seq<B>)
    ensures |ys| == |xs| && forall i :: 0 <= i < |xs| ==> ys[i] == f(xs[i])
  {
    seq(|xs|, i requires 0 <= i < |xs| => f(xs[i]))
  }

  /** `xs.slice(k).reduce((acc, x) => acc.concat(f(x)), acc)`: appends `f(x)` for each remaining element. */
  function ConcatEach<A, B>(f: A -> B, xs: seq<A>, acc: seq<B>, k: nat): seq<B>
    decreases |xs| - k
  {
    if k >= |xs| then acc else ConcatEach(f, xs, acc + [f(xs[k])], k + 1)
  }

  /** The `reduce`/`concat` fold is a `map` placed after the accumulator. */
  lemma {:induction false} ConcatEachIsMap<A, B>(f: A -> B, xs: seq<A>, acc: seq<B>, k: nat)
    requires k <= |xs|
    ensures ConcatEach(f, xs, acc, k) == acc + MapSeq(f, xs)[k..]
    decreases |xs| - k
  {
    var all := MapSeq(f, xs);
    if k < |xs| {
      ConcatEachIsMap(f, xs, acc + [all[k]], k + 1);
      assert all[k..] == [all[k]] + all[k + 1..];
      assert acc + [all[k]] + all[k + 1..] == acc + all[k..];
    } else {
      assert all[k..] == [];
      assert acc + [] == acc;
    }
  }

  /** The index of the first pair whose name is `key`, or -1. */
  function KeyIndex<V>(pairs: seq<(string, V)>, key: string): (i: int)
    ensures -1 <= i < |pairs|
    ensures i == -1 ==> forall j :: 0 <= j < |pairs| ==> pairs[j].0 != key
    ensures i >= 0 ==> pairs[i].0 == key && forall j :: 0 <= j < i ==> pairs[j].0 != key
  {
    if pairs == [] then -1
    else if pairs[0].0 == key then 0
    else
      var i := KeyIndex(pairs[1..], key);
      if i == -1 then -1 else i + 1
  }

  /** `sub` occurs in `s` starting at index `k`. */
  predicate OccursAt(s: string, sub: string, k: int) {
    0 <= k && k + |sub| <= |s| && s[k..k + |sub|] == sub
  }

  /** The largest index `r <= k` at which `sub` occurs in `s`, or -1. */
  function LastIndexAtOrBelow(s: string, sub: string, k: int): (r: int)
    ensures r == -1 || (0 <= r <= k && OccursAt(s, sub, r))
    ensures forall j :: r < j <= k ==> !OccursAt(s, sub, j)
    decreases k
  {
    if k < 0 then -1
    else if OccursAt(s, sub, k) then k
    else LastIndexAtOrBelow(s, sub, k - 1)
  }

  /** `s.lastIndexOf(sub)`: the last index at which `sub` occurs in `s`, or -1 when it does not occur. */
  function LastIndexOf(s: string, sub: string): (r: int)
    ensures r == -1 || OccursAt(s, sub, r)
    ensures forall j :: r < j ==> !OccursAt(s, sub, j)
  {
    LastIndexAtOrBelow(s, sub, |s| - |sub|)
  }

  /** A one-character needle occurs exactly where that character stands. */
  lemma OccursAtChar(s: string, c: char, j: int)
    ensures OccursAt(s, [c], j) <==> 0 <= j < |s| && s[j] == c
  {
    if 0 <= j < |s| {
      assert s[j..j + 1] == [s[j]];
    }
  }

  /** For a one-character needle, `lastIndexOf` finds the last position holding that character. */
  lemma LastIndexOfChar(s: string, c: char)
    ensures LastIndexOf(s, [c]) == -1 <==> c !in s
    ensures LastIndexOf(s, [c]) >= 0 ==>
      LastIndexOf(s, [c]) < |s| && s[LastIndexOf(s, [c])] == c && c !in s[LastIndexOf(s, [c]) + 1..]
  {
    var r := LastIndexOf(s, [c]);
    forall j | 0 <= j < |s| && s[j] == c
      ensures j <= r
    {
      OccursAtChar(s, c, j);
    }
    if r >= 0 {
      OccursAtChar(s, c, r);
      var tail := s[r + 1..];
      forall k | 0 <= k < |tail|
        ensures tail[k] != c
      {
        assert tail[k] == s[r + 1 + k];
      }
    }
  }
}
