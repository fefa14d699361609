/**
 * The compiled extractor tables, the short-circuit search over them, the dispatcher
 * `analyzeURL` and the subscription list `urls`.
 */
module Dispatch {
  import opened JsCore
  import opened PathPattern
  import opened Extractors
  import opened Registry
  import opened HostFold

  /**
   * The closure `extract(path, value)` builds: the compiled path test and the extractor it guards.
   * The test is absent when the regular expression falls outside the shapes this model parses.
   */
  datatype PathExtractor = PathExtractor(matcher: Option<seq<Token>>, value: Extractor)

  /** `extract(path, value)`: compiles the path once, when the table is built. */
  function Extract(path: string, value: Extractor): (pe: PathExtractor)
    ensures SimplePath(path) ==> pe.matcher == Some(Lits(path))
    ensures pe.value == value
  {
    if SimplePath(path) then CompileSimplePath(path); PathExtractor(Compile(path), value)
    else PathExtractor(Compile(path), value)
  }

  /** Every extractor of the list has a compiled path test. */
  predicate AllCompiled(pes: seq<PathExtractor>) {
    forall j :: 0 <= j < |pes| ==> pes[j].matcher.Some?
  }

  /** Calling the closure on a URL: `re.test(url.pathname) && value(url)`. */
  function ApplyExtractor(pe: PathExtractor, url: Url): Result<JsValue>
    requires pe.matcher.Some?
  {
    if Matches(pe.matcher.value, url.pathname) then Eval(pe.value, url) else Ok(False)
  }

  /** For a simple path the closure runs its extractor exactly when the path is a prefix of the pathname, and yields false otherwise. */
  lemma ExtractIsPrefixGuard(path: string, value: Extractor, url: Url)
    requires SimplePath(path)
    ensures Extract(path, value).matcher.Some?
    ensures ApplyExtractor(Extract(path, value), url) ==
      if path <= url.pathname then Eval(value, url) else Ok(False)
  {
    MatchesLits(path, [], url.pathname);
    assert Lits(path) + [] == Lits(path);
  }

  /** A table keyed by `/` (`exit.sc`, `gate.sc`, `l.instagram.com`, …) runs its extractor on every pathname the URL parser produces, since each starts with `/`. */
  lemma RootPathAlwaysRuns(value: Extractor, url: Url)
    requires "/" <= url.pathname
    ensures Extract("/", value).matcher.Some?
    ensures ApplyExtractor(Extract("/", value), url) == Eval(value, url)
  {
    PlainPathIsSimple("/");
    ExtractIsPrefixGuard("/", value, url);
  }

  /** `extract(path, value)` applied to one (path, extractor) entry of a table. */
  function ExtractEntry(entry: (string, Extractor)): PathExtractor {
    Extract(entry.0, entry.1)
  }

  /** The inner `reduce` of `redirectExtractors`: `extract(path, value)` appended for each path in turn. */
  function CompilePaths(table: PathTable): seq<PathExtractor> {
    ConcatEach(ExtractEntry, table, [], 0)
  }

  /** `redirectExtractors[site]` has one extractor per path of the site, in the same order. */
  lemma CompilePathsShape(table: PathTable)
    ensures |CompilePaths(table)| == |table|
    ensures forall j :: 0 <= j < |table| ==> CompilePaths(table)[j] == Extract(table[j].0, table[j].1)
  {
    ConcatEachIsMap(ExtractEntry, table, [], 0);
    var all := MapSeq(ExtractEntry, table);
    assert CompilePaths(table) == all by {
      assert [] + all[0..] == all;
    }
  }

  /** The outer `reduce` of `redirectExtractors`: one compiled table per host, under the same key. */
  function CompileSites(reg: seq<(string, PathTable)>): (c: seq<(string, seq<PathExtractor>)>)
    ensures Names(c) == Names(reg)
  {
    seq(|reg|, i requires 0 <= i < |reg| => (reg[i].0, CompilePaths(reg[i].1)))
  }

  /** `redirectExtractors[host]` is the compiled form of `sites[host]`, and exists exactly when it does. */
  lemma LookupCompiled(reg: seq<(string, PathTable)>, host: string)
    ensures Lookup(CompileSites(reg), host).Some? <==> Lookup(reg, host).Some?
    ensures Lookup(reg, host).Some? ==>
      Lookup(CompileSites(reg), host).value == CompilePaths(Lookup(reg, host).value)
  {
    var c := CompileSites(reg);
    var i := KeyIndex(reg, host);
    var k := KeyIndex(c, host);
    if i >= 0 {
      assert Names(c)[i] == c[i].0;
      assert k == i;
    }
  }

  /** Every path of the table has the simple shape. */
  predicate SimpleTable(table: PathTable) {
    forall j :: 0 <= j < |table| ==> SimplePath(table[j].0)
  }

  /** A table of simple paths compiles completely. */
  lemma SimpleTableCompiles(table: PathTable)
    requires SimpleTable(table)
    ensures AllCompiled(CompilePaths(table))
  {
    CompilePathsShape(table);
  }

  /** `find(extractors, url)` as a function: the first truthy result, a thrown exception, or undefined. */
  function FirstTruthy(pes: seq<PathExtractor>, url: Url): (r: Result<JsValue>)
    requires AllCompiled(pes)
    ensures r.Ok? ==> r.value.Undefined? || Truthy(r.value)
  {
    if pes == [] then Ok(Undefined)
    else
      match ApplyExtractor(pes[0], url)
      case Err(e) => Err(e)
      case Ok(v) => if Truthy(v) then Ok(v) else FirstTruthy(pes[1..], url)
  }

  /** `find` in function mode: the indexed loop over the extractors, returning at the first truthy result. */
  method FindExtractor(pes: seq<PathExtractor>, url: Url) returns (r: Result<JsValue>)
    requires AllCompiled(pes)
    ensures r == FirstTruthy(pes, url)
  {
    var i := 0;
    while i < |pes|
      invariant 0 <= i <= |pes|
      invariant FirstTruthy(pes, url) == FirstTruthy(pes[i..], url)
    {
      assert pes[i..][1..] == pes[i + 1..];
      var result := ApplyExtractor(pes[i], url);
      if result.Err? {
        return Err(result.error);
      }
      if Truthy(result.value) {
        return result;
      }
      i := i + 1;
    }
    r := Ok(Undefined);
  }

  /** The candidate at `i` decides when every earlier one yielded a falsy value. */
  lemma {:induction false} FirstTruthyAt(pes: seq<PathExtractor>, url: Url, i: nat)
    requires AllCompiled(pes) && i < |pes|
    requires forall j :: 0 <= j < i ==> ApplyExtractor(pes[j], url).Ok? && !Truthy(ApplyExtractor(pes[j], url).value)
    requires ApplyExtractor(pes[i], url).Err? || Truthy(ApplyExtractor(pes[i], url).value)
    ensures FirstTruthy(pes, url) == ApplyExtractor(pes[i], url)
  {
    if i > 0 {
      assert ApplyExtractor(pes[0], url).Ok?;
      FirstTruthyAt(pes[1..], url, i - 1);
    }
  }

  /** With no truthy result and no exception (in particular with no candidates) `find` yields undefined. */
  lemma {:induction false} FirstTruthyNone(pes: seq<PathExtractor>, url: Url)
    requires AllCompiled(pes)
    requires forall j :: 0 <= j < |pes| ==> ApplyExtractor(pes[j], url).Ok? && !Truthy(ApplyExtractor(pes[j], url).value)
    ensures FirstTruthy(pes, url) == Ok(Undefined)
  {
    if pes != [] {
      assert ApplyExtractor(pes[0], url).Ok?;
      FirstTruthyNone(pes[1..], url);
    }
  }

  /** Short circuit: once a prefix of the candidates decides, the candidates after it are never consulted. */
  lemma {:induction false} FirstTruthyConcat(a: seq<PathExtractor>, b: seq<PathExtractor>, url: Url)
    requires AllCompiled(a) && AllCompiled(b)
    ensures AllCompiled(a + b)
    ensures FirstTruthy(a + b, url) ==
      if FirstTruthy(a, url) == Ok(Undefined) then FirstTruthy(b, url) else FirstTruthy(a, url)
  {
    if a == [] {
      assert a + b == b;
    } else {
      assert (a + b)[0] == a[0];
      assert (a + b)[1..] == a[1..] + b;
      FirstTruthyConcat(a[1..], b, url);
    }
  }

  /**
   * The reference reading of a path table, without compiled matchers: the first entry, in path
   * order, whose path is a prefix of the pathname and whose extractor yields a truthy value.
   */
  function FirstMatch(table: PathTable, url: Url): Result<JsValue> {
    if table == [] then Ok(Undefined)
    else if !(table[0].0 <= url.pathname) then FirstMatch(table[1..], url)
    else
      match Eval(table[0].1, url)
      case Err(e) => Err(e)
      case Ok(v) => if Truthy(v) then Ok(v) else FirstMatch(table[1..], url)
  }

  /** Extractors that behave as prefix-guarded entries of a table give the table's first match. */
  lemma {:induction false} FirstTruthyIsFirstMatch(pes: seq<PathExtractor>, table: PathTable, url: Url)
    requires AllCompiled(pes) && |pes| == |table|
    requires forall j :: 0 <= j < |pes| ==>
      ApplyExtractor(pes[j], url) == if table[j].0 <= url.pathname then Eval(table[j].1, url) else Ok(False)
    ensures FirstTruthy(pes, url) == FirstMatch(table, url)
  {
    if pes != [] {
      FirstTruthyIsFirstMatch(pes[1..], table[1..], url);
    }
  }

  /** The compiled table of simple paths agrees with the reference reading of the table. */
  lemma CompiledTableIsFirstMatch(table: PathTable, url: Url)
    requires SimpleTable(table)
    ensures AllCompiled(CompilePaths(table))
    ensures FirstTruthy(CompilePaths(table), url) == FirstMatch(table, url)
  {
    CompilePathsShape(table);
    var pes := CompilePaths(table);
    forall j | 0 <= j < |pes|
      ensures pes[j].matcher.Some?
      ensures ApplyExtractor(pes[j], url) ==
        if table[j].0 <= url.pathname then Eval(table[j].1, url) else Ok(False)
    {
      ExtractIsPrefixGuard(table[j].0, table[j].1, url);
    }
    FirstTruthyIsFirstMatch(pes, table, url);
  }

  /** `redirectUrl && { redirectUrl }`: a truthy result becomes the record, anything else stays undefined. */
  function RedirectRecord(found: Result<JsValue>): (r: Result<Option<string>>)
    ensures r.Err? <==> found.Err?
    ensures found.Err? ==> r == Err(found.error)
    ensures r.Ok? && r.value.Some? <==> found.Ok? && Truthy(found.value)
    ensures r.Ok? && r.value.Some? ==> r.value.value == found.value.s && r.value.value != ""
  {
    match found
    case Err(e) => Err(e)
    case Ok(v) => if Truthy(v) then Ok(Some(v.s)) else Ok(None)
  }

  /**
   * The dispatcher over a registry and its compiled tables: fold the host, give up when the folded
   * host has no table, otherwise wrap the first truthy result as `{ redirectUrl }`.
   */
  function AnalyzeWith(reg: seq<(string, PathTable)>, url: Url): (r: Result<Option<string>>)
    requires forall i :: 0 <= i < |reg| ==> SimpleTable(reg[i].1)
    ensures Fold(url.host) !in Names(reg) ==> r == Ok(None)
    ensures r.Ok? && r.value.Some? ==> r.value.value != ""
  {
    var host := Fold(url.host);
    var site := Lookup(reg, host);
    if site.None? then Ok(None)
    else
      LookupCompiled(reg, host);
      var i :| 0 <= i < |reg| && reg[i] == (host, site.value);
      SimpleTableCompiles(site.value);
      RedirectRecord(FirstTruthy(Lookup(CompileSites(reg), host).value, url))
  }

  /** Every table of `sites` consists of simple paths. */
  lemma SitesTablesSimple()
    ensures forall i :: 0 <= i < |Sites| ==> SimpleTable(Sites[i].1)
  {
    SitesPathsSimple();
  }

  /**
   * `analyzeURL(request)`: `parsed` is `new URL(request.url)`, absent when the URL does not parse
   * (a TypeError). The result is undefined (`None`) or `{ redirectUrl }` (`Some(redirectUrl)`).
   */
  function AnalyzeURL(parsed: Option<Url>): (r: Result<Option<string>>)
    ensures parsed.None? ==> r == Err(TypeError)
    ensures parsed.Some? && Fold(parsed.value.host) !in Names(Sites) ==> r == Ok(None)
    ensures r.Ok? && r.value.Some? ==> r.value.value != ""
  {
    match parsed
    case None => Err(TypeError)
    case Some(url) => SitesTablesSimple(); AnalyzeWith(Sites, url)
  }

  /** The dispatcher in terms of the registry alone: fold the host, look up its table, take the first match. */
  lemma AnalyzeWithIsFirstMatch(reg: seq<(string, PathTable)>, url: Url)
    requires forall i :: 0 <= i < |reg| ==> SimpleTable(reg[i].1)
    ensures AnalyzeWith(reg, url) ==
      match Lookup(reg, Fold(url.host))
      case None => Ok(None)
      case Some(table) => RedirectRecord(FirstMatch(table, url))
  {
    var host := Fold(url.host);
    var site := Lookup(reg, host);
    if site.Some? {
      LookupCompiled(reg, host);
      var i :| 0 <= i < |reg| && reg[i] == (host, site.value);
      CompiledTableIsFirstMatch(site.value, url);
    }
  }

  /** `analyzeURL` on a parsed URL reads the registry directly: fold, look up, first matching path with a truthy value. */
  lemma AnalyzeURLIsFirstMatch(url: Url)
    ensures AnalyzeURL(Some(url)) ==
      match Lookup(Sites, Fold(url.host))
      case None => Ok(None)
      case Some(table) => RedirectRecord(FirstMatch(table, url))
  {
    SitesTablesSimple();
    AnalyzeWithIsFirstMatch(Sites, url);
  }

  /** A URL whose folded host is the key of entry `i` of `sites` is resolved by that entry's table. */
  lemma AnalyzeRegistered(url: Url, i: nat)
    requires i < |Sites| && Fold(url.host) == Sites[i].0
    ensures AnalyzeURL(Some(url)) == RedirectRecord(FirstMatch(Sites[i].1, url))
  {
    SitesKeysDistinct();
    LookupDistinct(Sites, i);
    AnalyzeURLIsFirstMatch(url);
  }

  /** `"*://" + host + pathname + "*"`: the match pattern that subscribes to one (host, path) entry. */
  function MatchPattern(host: string, path: string): string {
    "*://" + host + path + "*"
  }

  /** The match patterns of one host, one per path, in path order. */
  function Patterns(site: (string, PathTable)): (ps: seq<string>)
    ensures |ps| == |site.1|
    ensures forall j :: 0 <= j < |site.1| ==> ps[j] == MatchPattern(site.0, site.1[j].0)
  {
    seq(|site.1|, j requires 0 <= j < |site.1| => MatchPattern(site.0, site.1[j].0))
  }

  /** `reduceSites(urls, host)`: `urls` followed by the patterns of `host`. */
  function ReduceSites(urls: seq<string>, site: (string, PathTable)): seq<string> {
    urls + Patterns(site)
  }

  /** `Object.keys(sites).reduce(reduceSites, acc)` from the `k`-th host on. */
  function UrlsFrom(reg: seq<(string, PathTable)>, acc: seq<string>, k: nat): seq<string>
    decreases |reg| - k
  {
    if k >= |reg| then acc else UrlsFrom(reg, ReduceSites(acc, reg[k]), k + 1)
  }

  /** `urls`, for a registry `reg`. */
  function Urls(reg: seq<(string, PathTable)>): seq<string> {
    UrlsFrom(reg, [], 0)
  }

  /** The fold keeps its accumulator in front of what the remaining hosts add. */
  lemma {:induction false} UrlsFromAccumulator(reg: seq<(string, PathTable)>, acc: seq<string>, k: nat)
    ensures UrlsFrom(reg, acc, k) == acc + UrlsFrom(reg, [], k)
    decreases |reg| - k
  {
    var none: seq<string> := [];
    if k < |reg| {
      var p := Patterns(reg[k]);
      UrlsFromAccumulator(reg, acc + p, k + 1);
      UrlsFromAccumulator(reg, none + p, k + 1);
      var rest := UrlsFrom(reg, none, k + 1);
      assert none + p == p;
      assert (acc + p) + rest == acc + (p + rest);
    } else {
      assert acc + none == acc;
    }
  }

  /** Hosts in registry order: the patterns of host `k` come first, followed by those of the later hosts. */
  lemma UrlsFromStep(reg: seq<(string, PathTable)>, k: nat)
    requires k < |reg|
    ensures UrlsFrom(reg, [], k) == Patterns(reg[k]) + UrlsFrom(reg, [], k + 1)
  {
    var none: seq<string> := [];
    assert none + Patterns(reg[k]) == Patterns(reg[k]);
    UrlsFromAccumulator(reg, Patterns(reg[k]), k + 1);
  }

  /** The list from host `k` on has one pattern per (host, path) entry of those hosts. */
  lemma {:induction false} UrlsFromLength(reg: seq<(string, PathTable)>, k: nat)
    ensures |UrlsFrom(reg, [], k)| == EntryCountFrom(reg, k)
    decreases |reg| - k
  {
    if k < |reg| {
      UrlsFromStep(reg, k);
      UrlsFromLength(reg, k + 1);
    }
  }

  /** `urls` holds one pattern per (host, path) entry. */
  lemma UrlsLength(reg: seq<(string, PathTable)>)
    ensures |Urls(reg)| == EntryCount(reg)
  {
    UrlsFromLength(reg, 0);
  }

  /** A pattern is in the list from host `k` on exactly when it is the pattern of an entry of a host at or after `k`. */
  lemma {:induction false} UrlsFromMembers(reg: seq<(string, PathTable)>, k: nat, p: string)
    ensures p in UrlsFrom(reg, [], k) <==>
      exists i, j :: k <= i < |reg| && 0 <= j < |reg[i].1| && p == MatchPattern(reg[i].0, reg[i].1[j].0)
    decreases |reg| - k
  {
    if k < |reg| {
      UrlsFromStep(reg, k);
      UrlsFromMembers(reg, k + 1, p);
      var head := Patterns(reg[k]);
      if p in head {
        var j :| 0 <= j < |head| && head[j] == p;
        assert p == MatchPattern(reg[k].0, reg[k].1[j].0);
      }
      if exists i, j :: k <= i < |reg| && 0 <= j < |reg[i].1| && p == MatchPattern(reg[i].0, reg[i].1[j].0) {
        var i, j :| k <= i < |reg| && 0 <= j < |reg[i].1| && p == MatchPattern(reg[i].0, reg[i].1[j].0);
        if i == k {
          assert head[j] == p;
        }
      }
    }
  }

  /** `urls` holds exactly the patterns of the registry's (host, path) entries. */
  lemma UrlsMembers(reg: seq<(string, PathTable)>, p: string)
    ensures p in Urls(reg) <==>
      exists i, j :: 0 <= i < |reg| && 0 <= j < |reg[i].1| && p == MatchPattern(reg[i].0, reg[i].1[j].0)
  {
    UrlsFromMembers(reg, 0, p);
  }

  /** The first pattern of `urls` is that of the first path of the first host. */
  lemma UrlsFirst(reg: seq<(string, PathTable)>)
    requires |reg| > 0 && |reg[0].1| > 0
    ensures |Urls(reg)| > 0 && Urls(reg)[0] == MatchPattern(reg[0].0, reg[0].1[0].0)
  {
    UrlsFromStep(reg, 0);
  }

  /** The subscription list of `sites` has 25 patterns. */
  lemma SitesUrlsLength()
    ensures |Urls(Sites)| == 25
  {
    UrlsLength(Sites);
    SitesSize();
  }

  /** The subscription list of `sites` starts with the curseforge link-out path. */
  lemma SitesUrlsFirst()
    ensures |Urls(Sites)| > 0 && Urls(Sites)[0] == "*://*.curseforge.com/linkout*"
  {
    UrlsFirst(Sites);
  }
}
