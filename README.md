# intercept-redirect: the redirect-resolution engine, modelled in Dafny

The engine in `webextension/index.js` is modelled here. Given a request URL that points at a
known tracking or redirector link (`l.facebook.com/l.php?u=…`, `wow.curseforge.com/linkout?remoteUrl=…`,
…), it returns the destination hidden inside it as `{ redirectUrl }`, or `undefined` when it
does not know the host or finds nothing.

The model follows the engine stage by stage, one module each:

- `JsCore`: the JavaScript values the engine passes around (`Str`, `null`, `false`,
  `undefined`) and their truthiness. Exceptions become a `Result`. Also here: `lastIndexOf`,
  and the `reduce`/`concat` fold used to build the tables.
- `UriDecoding`: `decodeURIComponent`, restricted to escapes of ASCII octets. A decoder must
  undo percent-encoding, so the model includes a percent-encoder and the round trip between the two.
- `PathPattern`: `matchPatternToRegex`, and the start-anchored regular-expression test that
  `extract` builds from it. The test is given a meaning only for the shape of expression the
  compiler can produce.
- `Extractors`: `searchParam`, `decode`, `stripFromColon` and `pickFromLastSlash`, plus the Google
  "first parameter present" strategy. `find` in key mode is the method `FindByKeys`.
- `Registry`: the `sites` table as an ordered list of (host, ordered list of (path, extractor))
  in key insertion order, with `googlePathnames` and `domains`.
- `HostFold`: `subdomain`, as the loop method `Subdomain` beside its function `Fold`.
- `Dispatch`:
  - `extract` and `redirectExtractors`, the compiled per-host tables;
  - `find` in extractor mode, as the loop method `FindExtractor` beside the function `FirstTruthy`;
  - `analyzeURL`;
  - `reduceSites` and the subscription list `urls`.
- `Examples`: whole requests through `AnalyzeURL`. These are the five links recorded as comments in
  the registry (curseforge, ebsta, gate.sc, mozaws, safelinks), plus Facebook, Tumblr, disq.us and
  Google requests and an unregistered host.

The two loops with early `return` (`subdomain`, `find`) are `while` loops with invariants. Each
is proved equal to a recursive function, and the properties are proved about that function. Both
tables are built once and never changed, so they are constant sequences.

The central results are these:

- `analyzeURL` reads the registry directly (`AnalyzeURLIsFirstMatch`). It folds the host. A
  folded host that is not a key gives `undefined`. Otherwise the result is the first entry, in
  path order, whose path is a prefix of the pathname and whose extractor yields a non-empty string
  or throws; an exception on a matching path ends the search.
- The compiled regular expression of every registered path is exactly that prefix test
  (`CompiledSimplePathIsPrefixTest`, `SitesPathsSimple`).
- `urls` holds exactly one `*://host/path*` pattern per (host, path) entry, in registry order: 25
  of them.

Two behaviours of `index.js` a reader may not expect:

- `subdomain` has no dot-boundary check. `evilcurseforge.com` folds onto `*.curseforge.com`
  just as `wow.curseforge.com` does (`NoDotBoundary`).
- The curseforge link decodes twice. `searchParams` decodes once, then `decode` once more. So
  `remoteUrl=http%253a%252f%252fi.imgur.com%252f1AjSgEH.png` redirects to
  `http://i.imgur.com/1AjSgEH.png`, not to `http%3a%2f%2fi.imgur.com%2f1AjSgEH.png`
  (`CurseforgeExample`).

`index.js` also has two behaviours that the model states and does not alter:

- The mozaws extractor keeps only the text after the last `/` of the pathname. The link recorded
  beside that entry embeds `https%3A//developer.mozilla.org/…/Match_patterns` with its slashes
  unescaped, so it redirects to `Match_patterns` alone (`MozawsExample`).
- Only the first `.` of a path is escaped. A second dot matches any character
  (`SecondDotAcceptsNonPrefix`). No registered path has a second dot.

## Model

| member | source | states |
|---|---|---|
| JsCore.ConcatEachIsMap | webextension/index.js:122-125 | the `reduce` that concatenates `f(x)` onto the accumulator equals the accumulator followed by `map(f)` of the remaining elements |
| JsCore.LastIndexOf | webextension/index.js:106 | `lastIndexOf` returns -1 or an index where the needle occurs, and the needle occurs at no later index |
| JsCore.LastIndexOfChar | webextension/index.js:13-14 | for a one-character needle, `lastIndexOf` is -1 exactly when the character is absent; otherwise it is the position of a character with none after it |
| UriDecoding.DecodeURIComponent | webextension/index.js:12 | `decodeURIComponent` never lengthens its input and leaves a string without `%` unchanged |
| UriDecoding.DecodeEscape | webextension/index.js:12 | a leading `%XY` escape of an ASCII octet decodes to the character with code XY, followed by the decoding of the rest; an error in the rest propagates |
| UriDecoding.DecodeLiteralPrefix | webextension/index.js:12 | decoding works left to right: an escape-free prefix passes through unchanged and an error in the rest propagates |
| UriDecoding.DecodeEncodeRoundTrip | webextension/index.js:12 | decoding the percent-encoding of any ASCII string gives back that string |
| PathPattern.ReplaceFirst | webextension/index.js:4 | `replace` with a one-character, non-global pattern rewrites the first occurrence of the character and nothing else, and leaves a string without it unchanged |
| PathPattern.MatchPatternToRegex | webextension/index.js:4 | `matchPatternToRegex` always anchors at the start with `^`, and copies a pattern with neither `.` nor `*` verbatim after it |
| PathPattern.IndexOf | webextension/index.js:4 | the position `replace(/\./, …)` and `replace(/\*/, …)` rewrite: the first index holding the character, or -1 exactly when it is absent |
| PathPattern.RegexLength | webextension/index.js:4 | the compiled source is one longer than the pattern (the `^`), plus one if the pattern has a `.` and one more if it has a `*`: each is rewritten at most once |
| PathPattern.RegexOfStarFreePath | webextension/index.js:4 | a pattern without `*` compiles to `^` followed by the pattern with only its first `.` turned into `\.` |
| PathPattern.OneDotRegexBody | webextension/index.js:4 | `a.b` with plain `a` and `b` compiles to `^a\.b` |
| PathPattern.CompileSimplePath | webextension/index.js:4-7 | `Compile` (`new RegExp(matchPatternToRegex(path))`) turns a path with no `*`, at most one `.` and no other regular-expression metacharacter into the literal tokens of the path |
| PathPattern.MatchesLits | webextension/index.js:8 | for `Matches` (`re.test`), literal tokens followed by more tokens match at the start of a string exactly when the literal text starts it and the rest matches what is left |
| PathPattern.CompiledSimplePathIsPrefixTest | webextension/index.js:4-8 | the compiled test of such a path (no `*`, at most one `.`, no other metacharacter) accepts a pathname exactly when the path is a prefix of it |
| PathPattern.TrailingStarIsPrefixTest | webextension/index.js:4-8 | a pattern `p*` compiles to the tokens of `p` followed by a wildcard run, which accepts exactly the pathnames starting with `p` |
| PathPattern.SecondDotCompilesToAnyCharacter | webextension/index.js:4 | in `/a.b.c` only the first dot is escaped; the second becomes an any-character token |
| PathPattern.SecondDotAcceptsNonPrefix | webextension/index.js:4-8 | so `/a.b.c` accepts `/a.bXc`, which it does not prefix |
| Extractors.GetParam | webextension/index.js:11 | `searchParams.get(key)` is null exactly when no pair is named `key`, and otherwise the value of the first pair named `key` |
| Extractors.FirstPresent | webextension/index.js:130-139 | `find` in key mode yields undefined or a truthy value |
| Extractors.FindByKeys | webextension/index.js:130-139 | the loop over the keys returns the same value as `FirstPresent` |
| Extractors.FirstPresentAt | webextension/index.js:135-138 | the first key with a truthy value decides, whatever the later keys hold |
| Extractors.FirstPresentNone | webextension/index.js:135-139 | with no truthy value (an empty key list included) `find` yields undefined |
| Extractors.StripFromColon | webextension/index.js:13 | `stripFromColon` gives "" when there is no colon; otherwise it gives a proper prefix followed in the input by a colon, with no colon after that one |
| Extractors.StripFromColonAt | webextension/index.js:13 | the result is the text before the last colon, wherever that colon is |
| Extractors.PickFromLastSlash | webextension/index.js:14 | `pickFromLastSlash` gives a suffix with no `/`: the whole input when it has no `/`, otherwise the text after a `/` |
| Extractors.PickFromLastSlashAt | webextension/index.js:14 | the result is the text after the last slash, wherever that slash is |
| Extractors.SubstringReceiver | webextension/index.js:13-14 | the `s = ''` default covers only undefined; a string is used as is, and null or false throw a TypeError |
| Extractors.DecodeArgument | webextension/index.js:12 | `decode` passes a string argument through unchanged |
| Extractors.Eval | webextension/index.js:11-14 | an extractor never yields `false`, and every composed extractor (decode, strip, pick, pathname) yields a string |
| Extractors.SearchParamTruthy | webextension/index.js:11 | `searchParam(key)` is truthy exactly when the first pair named `key` has a non-empty value |
| Extractors.DecodedParam | webextension/index.js:24 | the curseforge extractor is one more decoding pass over the parameter value, with decoding errors propagated |
| Extractors.StrippedParam | webextension/index.js:30 | the disq.us extractor is the parameter cut at its last colon, and is falsy when the value has no colon |
| Extractors.LastSegmentDecoded | webextension/index.js:65 | the mozaws extractor decodes the pathname text after its last slash |
| Registry.Lookup | webextension/index.js:145 | `sites[host]` is absent exactly when the host is not a key; otherwise it is the table of the first entry with that key |
| Registry.LookupAt | webextension/index.js:145 | looking up the key of an entry with no earlier duplicate finds that entry's table |
| Registry.LookupDistinct | webextension/index.js:145 | in a registry with distinct keys, `sites[host]` for the key of any entry is that entry's table |
| Registry.SitesKeysDistinct | webextension/index.js:21-92 | the 23 hosts of `sites` are pairwise different, as the keys of an object literal are |
| Registry.SitesKeys | webextension/index.js:21-92 | `Object.keys(sites)` (the constant `Sites`) lists the 23 hosts in declaration order |
| Registry.SitesSize | webextension/index.js:21-92 | `sites` has 23 hosts and 25 (host, path) entries |
| Registry.SitesPathsSimple | webextension/index.js:21-92 | every registered path has no `*` and at most one `.`, between plain text |
| HostFold.FoldsOntoIffProperSuffix | webextension/index.js:104-106 | the `expectedIndex > 0 && lastIndexOf(domain) === expectedIndex` test holds exactly when the domain ends the host with at least one character before it |
| HostFold.Subdomain | webextension/index.js:99-111 | the loop over `domains` with its early return computes `Fold(host)`, the function `FoldFrom` applied to the constant `Domains` |
| HostFold.FoldFromFirstSuffix | webextension/index.js:102-108 | the first domain, in list order, that properly ends the host gives `*.` + that domain |
| HostFold.FoldFromNoSuffix | webextension/index.js:102-110 | a host that no domain properly ends is returned unchanged |
| HostFold.FoldFromCases | webextension/index.js:99-111 | `FoldFrom`, the loop of `subdomain` as a function: every result is the host itself, or `*.` + a listed domain that properly ends the host |
| HostFold.FoldCurseforge | webextension/index.js:94-111 | a host ending in `curseforge.com` after at least one character folds to `*.curseforge.com` |
| HostFold.FoldDigidip | webextension/index.js:94-111 | a host ending in `digidip.net` after at least one character folds to `*.digidip.net` |
| HostFold.FoldNone | webextension/index.js:94-111 | any other host is kept unchanged |
| HostFold.FoldOutcomes | webextension/index.js:94-111 | over `domains` (the constant `Domains`), `subdomain` has exactly three kinds of result: the host, `*.curseforge.com` or `*.digidip.net` |
| HostFold.FoldLandsInRegistry | webextension/index.js:94-111 | every folded result is a key of `sites` |
| HostFold.FoldIdempotent | webextension/index.js:99-111 | folding an already folded host changes nothing |
| HostFold.BareDomainKept | webextension/index.js:104-106 | a host equal to a bare domain is not folded (`expectedIndex` is 0) |
| HostFold.NoDotBoundary | webextension/index.js:104-107 | `evilcurseforge.com` folds onto `*.curseforge.com` like `wow.curseforge.com`, because there is no dot-boundary check |
| Dispatch.Extract | webextension/index.js:6-9 | `extract` keeps the extractor and, for a simple path, compiles the path to its literal tokens |
| Dispatch.ExtractIsPrefixGuard | webextension/index.js:6-9 | `ApplyExtractor`, the closure built by `extract`, for a simple path runs the extractor exactly when the path prefixes the pathname, and yields `false` otherwise |
| Dispatch.RootPathAlwaysRuns | webextension/index.js:36-38 | the closure of a `/` entry (`exit.sc`, `gate.sc`, `l.instagram.com`, …) runs its extractor on every pathname starting with `/` |
| Dispatch.CompilePathsShape | webextension/index.js:122-125 | `CompilePaths`, the inner `reduce`: `redirectExtractors[site]` has one extractor per path of `sites[site]`, in the same order, the j-th built from the j-th path |
| Dispatch.CompileSites | webextension/index.js:121-128 | `redirectExtractors` (`CompileSites(Sites)`) has the same keys as `sites`, in the same order |
| Dispatch.LookupCompiled | webextension/index.js:121-128 | `redirectExtractors[host]` exists exactly when `sites[host]` does, and is its compiled table |
| Dispatch.FirstTruthy | webextension/index.js:130-139 | `find` in extractor mode yields undefined, a truthy value, or the exception an extractor threw |
| Dispatch.FindExtractor | webextension/index.js:130-139 | the loop over the extractors returns the same result as `FirstTruthy` |
| Dispatch.FirstTruthyAt | webextension/index.js:135-138 | the first extractor that yields a truthy value or throws decides, whatever follows it |
| Dispatch.FirstTruthyNone | webextension/index.js:135-139 | with no truthy result and no exception (an empty list included) `find` yields undefined |
| Dispatch.FirstTruthyConcat | webextension/index.js:135-138 | short circuit: once a prefix of the list decides, the rest is never consulted |
| Dispatch.FirstTruthyIsFirstMatch | webextension/index.js:130-139 | extractors that act as prefix-guarded table entries give `FirstMatch`, the reference reading of the table: the first prefix-matching entry with a truthy value, or the first exception |
| Dispatch.CompiledTableIsFirstMatch | webextension/index.js:121-139 | a compiled table of simple paths agrees with the reference reading of the table |
| Dispatch.RedirectRecord | webextension/index.js:153 | `redirectUrl && { redirectUrl }` gives a record exactly for a truthy value, holding that non-empty string; exceptions propagate |
| Dispatch.AnalyzeWith | webextension/index.js:141-154 | the dispatcher over any registry of simple paths gives no redirect for an unregistered folded host and never an empty one |
| Dispatch.SitesTablesSimple | webextension/index.js:21-92 | every table of `sites` consists of simple paths |
| Dispatch.AnalyzeURL | webextension/index.js:141-154 | an unparsable URL throws a TypeError, an unregistered folded host gives undefined, and a record never holds an empty `redirectUrl` |
| Dispatch.AnalyzeWithIsFirstMatch | webextension/index.js:141-154 | the dispatcher over a registry is: fold, look up, then the first prefix-matching entry with a truthy value |
| Dispatch.AnalyzeURLIsFirstMatch | webextension/index.js:141-154 | the same for `analyzeURL` over `sites` |
| Dispatch.AnalyzeRegistered | webextension/index.js:141-154 | a URL whose folded host is the key of entry `i` is resolved by entry `i`'s table |
| Dispatch.Patterns | webextension/index.js:114-116 | one host's patterns are `*://host` + path + `*`, one per path in path order |
| Dispatch.UrlsFromAccumulator | webextension/index.js:119 | the `reduce` keeps its accumulator in front of everything it adds |
| Dispatch.UrlsFromStep | webextension/index.js:113-119 | `UrlsFrom` applies `ReduceSites` host by host: hosts are taken in registry order: a host's patterns come before those of the later hosts |
| Dispatch.UrlsFromLength | webextension/index.js:113-119 | from host `k` on, the list has one pattern per (host, path) entry of those hosts |
| Dispatch.UrlsLength | webextension/index.js:119 | `urls` (`Urls`) has one pattern per (host, path) entry |
| Dispatch.UrlsFromMembers | webextension/index.js:113-119 | a pattern is in the list from host `k` on exactly when it belongs to an entry of a host at or after `k` |
| Dispatch.UrlsMembers | webextension/index.js:113-119 | `urls` holds exactly the patterns of the registry's entries |
| Dispatch.UrlsFirst | webextension/index.js:113-119 | the first pattern of `urls` is that of the first path of the first host |
| Dispatch.SitesUrlsLength | webextension/index.js:119 | `urls` over `sites` has 25 patterns |
| Dispatch.SitesUrlsFirst | webextension/index.js:119 | `urls` over `sites` starts with `*://*.curseforge.com/linkout*` |
| Examples.SinglePathHit | webextension/index.js:141-154 | a registered host with one path, where the path prefixes the pathname and the extractor yields a non-empty string, redirects to that string |
| Examples.ExactHostsKept | webextension/index.js:99-111 | `l.facebook.com`, `t.umblr.com`, `disq.us` and `www.google.com` end in neither folded domain and are looked up as they are |
| Examples.FacebookExample | webextension/index.js:39-41 | `l.facebook.com/l.php?u=https%3A%2F%2Fexample.com` redirects to `https://example.com` |
| Examples.TumblrExample | webextension/index.js:80-82 | `t.umblr.com/redirect?z=…&x=1` redirects to `z` |
| Examples.EbstaExample | webextension/index.js:32-35 | the recorded `console.ebsta.com/linktracking/track.aspx` link redirects to its third parameter, `linkuri` |
| Examples.GateExample | webextension/index.js:42-45 | the recorded `gate.sc/?url=…&token=…` link redirects to `url` from the root path |
| Examples.SafelinksExample | webextension/index.js:67-70 | the recorded `gcc01.safelinks.protection.outlook.com/?url=…` link redirects to `url` |
| Examples.StripPortExample | webextension/index.js:13 | `https://example.com:1234` is cut to `https://example.com` |
| Examples.StripSchemeExample | webextension/index.js:13 | `https://example.com` is cut to `https`, at the scheme's own colon |
| Examples.DisqExample | webextension/index.js:29-31 | `disq.us/url?url=https://example.com:1234` redirects to `https://example.com` |
| Examples.UnknownHostExample | webextension/index.js:145-149 | an unregistered host gives undefined |
| Examples.DecodeOnceExample | webextension/index.js:12 | decoding is a single pass: `%2541` becomes `%41` |
| Examples.DecodeEscapedUrl | webextension/index.js:12 | a URL with escaped `:` and `/` separators decodes to `scheme://host/file` |
| Examples.CurseforgeDecode | webextension/index.js:24 | the parameter value `http%3a%2f%2fi.imgur.com%2f1AjSgEH.png` decodes to `http://i.imgur.com/1AjSgEH.png` |
| Examples.CurseforgeExample | webextension/index.js:22-25 | the recorded `wow.curseforge.com/linkout` link redirects to `http://i.imgur.com/1AjSgEH.png` |
| Examples.GoogleUrlTable | webextension/index.js:16-19 | `googlePathnames` (the constant `GooglePathnames`): on `/url` the `/imgres` entry does not match, and `find` takes `q` first |
| Examples.GoogleUrlExample | webextension/index.js:53 | `www.google.com/url?q=…` redirects to `q` |
| Examples.GoogleImgresTable | webextension/index.js:16-19 | on `/imgres` with no `imgurl`, `find` falls back to `imgrefurl` |
| Examples.GoogleImgresExample | webextension/index.js:53 | `www.google.com/imgres?imgrefurl=…` redirects to `imgrefurl` |
| Examples.MozawsLastSegment | webextension/index.js:64-66 | a mozaws `/v1/…/segment` link redirects to its last path segment alone |
| Examples.MozawsExample | webextension/index.js:63-66 | the recorded mozaws link, whose embedded URL keeps its slashes, redirects to `Match_patterns` |
| Examples.UnparsableExample | webextension/index.js:142 | an unparsable request URL makes `analyzeURL` throw a TypeError |

## Left out

- Browser wiring is not modelled: the `chrome.webRequest.onBeforeRequest` registration
  (webextension/index.js:157), the `exports` block (159-163) and the `window.URL`/`require('url')`
  polyfill (2). They are host-runtime plumbing.
- WHATWG URL parsing (`new URL(request.url)`) is not modelled. `AnalyzeURL` takes the parse
  result as an `Option<Url>`: `None` stands for a string the parser rejects, which throws a
  TypeError. A `Url` holds `host` (including any port), `pathname`, and the `searchParams`
  pairs already percent-decoded once.
- UriDecoding.DecodeURIComponent: escapes of octets of 0x80 and above start a UTF-8 sequence. They
  yield the model-only error `NonAsciiEscape` rather than a decoded character or a URIError.
- Regular expressions: no general engine is modelled. `Compile` reads only the shape
  `matchPatternToRegex` produces (literal characters, `\.`, `.` and `.*`), and gives `None` for
  anything else. A `PathExtractor` with `None` as its matcher is never run. Every registered path
  has the modelled shape (`SitesTablesSimple`).
- A missing parameter: `searchParams.get` returns null, and the `s = ''` defaults apply only to
  undefined. So `decode(null)` decodes the string "null" (webextension/index.js:12, 24), and
  `stripFromColon(null)` throws a TypeError (webextension/index.js:13, 30). The model keeps
  both behaviours (`DecodeArgument`, `SubstringReceiver`) and states no properties about them.
- The runtime type tests inside `find` (webextension/index.js:131-133) are not modelled. `find`
  is split into its two typed uses: `FindByKeys` over parameter names and `FindExtractor` over
  compiled extractors.
- Hosts that name inherited `Object.prototype` properties (`constructor`, `__proto__`) are
  treated as unregistered. In the source `sites[host]` is then truthy, but `find` is called on a
  non-array with a non-function and returns undefined, so the result is the same.
