/** Worked requests through the whole engine, with URLs already parsed into host, path and decoded query. */
module Examples {
  import opened JsCore
  import opened UriDecoding
  import opened PathPattern
  import opened Extractors
  import opened Registry
  import opened HostFold
  import opened Dispatch

  const Target: string := "https://example.com"

  /** A host with a one-path table whose path prefixes the pathname redirects to what the extractor yields. */
  lemma SinglePathHit(url: Url, i: nat, path: string, e: Extractor, t: string)
    requires i < |Sites| && Sites[i] == (Fold(url.host), [(path, e)])
    requires path <= url.pathname && Eval(e, url) == Ok(Str(t)) && t != ""
    ensures AnalyzeURL(Some(url)) == Ok(Some(t))
  {
    AnalyzeRegistered(url, i);
    var table := [(path, e)];
    assert FirstMatch(table[1..], url) == Ok(Undefined);
  }

  /** Hosts registered under their exact name end in neither folded domain and are kept as they are. */
  lemma ExactHostsKept()
    ensures Fold("l.facebook.com") == "l.facebook.com"
    ensures Fold("t.umblr.com") == "t.umblr.com"
    ensures Fold("disq.us") == "disq.us"
    ensures Fold("www.google.com") == "www.google.com"
  {
    var facebook, google := "l.facebook.com", "www.google.com";
    assert facebook[3] != 'd' && google[3] != 'd';
    FoldNone(facebook);
    FoldNone("t.umblr.com");
    FoldNone("disq.us");
    FoldNone(google);
  }

  lemma FacebookEntry()
    ensures Sites[5] == ("l.facebook.com", [("/l.php", SearchParam("u"))])
  {
  }

  /** `l.facebook.com/l.php?u=https%3A%2F%2Fexample.com` redirects to the `u` parameter as `searchParams` decoded it. */
  lemma FacebookExample()
    ensures AnalyzeURL(Some(Url("l.facebook.com", "/l.php", [("u", Target)]))) == Ok(Some(Target))
  {
    var url := Url("l.facebook.com", "/l.php", [("u", Target)]);
    ExactHostsKept();
    FacebookEntry();
    assert GetParam(url.query, "u") == Str(Target);
    SinglePathHit(url, 5, "/l.php", SearchParam("u"), Target);
  }

  lemma TumblrEntry()
    ensures Sites[19] == ("t.umblr.com", [("/redirect", SearchParam("z"))])
  {
  }

  /** `t.umblr.com/redirect?z=https://example.com&x=1` redirects to `z`; the later parameter plays no part. */
  lemma TumblrExample()
    ensures AnalyzeURL(Some(Url("t.umblr.com", "/redirect", [("z", Target), ("x", "1")]))) == Ok(Some(Target))
  {
    var url := Url("t.umblr.com", "/redirect", [("z", Target), ("x", "1")]);
    ExactHostsKept();
    TumblrEntry();
    assert GetParam(url.query, "z") == Str(Target);
    SinglePathHit(url, 19, "/redirect", SearchParam("z"), Target);
  }

  lemma DisqEntry()
    ensures Sites[2] == ("disq.us", [("/url", StripColon(SearchParam("url")))])
  {
  }

  lemma EbstaEntry()
    ensures Sites[3] == ("console.ebsta.com", [("/linktracking/track.aspx", SearchParam("linkuri"))])
  {
  }

  /**
   * The link recorded beside the ebsta entry, `console.ebsta.com/linktracking/track.aspx?trackid=…&linktrackingid=2&linkuri=…`,
   * redirects to `linkuri`, the third parameter.
   */
  lemma EbstaExample()
    ensures AnalyzeURL(Some(Url("console.ebsta.com", "/linktracking/track.aspx",
      [("trackid", "3a096df7-b279-43a5-b42c-cbda7b72759c-1568686588593"), ("linktrackingid", "2"),
       ("linkuri", "https://en-jp.wantedly.com/projects/328561")])))
      == Ok(Some("https://en-jp.wantedly.com/projects/328561"))
  {
    var host, target := "console.ebsta.com", "https://en-jp.wantedly.com/projects/328561";
    var url := Url(host, "/linktracking/track.aspx",
      [("trackid", "3a096df7-b279-43a5-b42c-cbda7b72759c-1568686588593"), ("linktrackingid", "2"), ("linkuri", target)]);
    EbstaHostKept();
    EbstaEntry();
    ThirdParam(url.query, "linkuri");
    SinglePathHit(url, 3, "/linktracking/track.aspx", SearchParam("linkuri"), target);
  }

  lemma EbstaHostKept()
    ensures Fold("console.ebsta.com") == "console.ebsta.com"
  {
    var host := "console.ebsta.com";
    assert host[3] != 'c';
    FoldNone(host);
  }

  /** `searchParams.get` of the third parameter's name, when the first two are named differently. */
  lemma ThirdParam(query: seq<(string, string)>, key: string)
    requires |query| == 3 && query[2].0 == key && query[0].0 != key && query[1].0 != key
    ensures GetParam(query, key) == Str(query[2].1)
  {
  }

  lemma GateEntry()
    ensures Sites[6] == ("gate.sc", [("/", SearchParam("url"))])
  {
  }

  /** The link recorded beside the gate.sc entry, `gate.sc/?url=…&token=…`, redirects to `url` from the root path. */
  lemma GateExample()
    ensures AnalyzeURL(Some(Url("gate.sc", "/", [("url", "http://fanlink.to/Partial7"), ("token", "10fd54-1-1565068249069")])))
      == Ok(Some("http://fanlink.to/Partial7"))
  {
    var target := "http://fanlink.to/Partial7";
    var url := Url("gate.sc", "/", [("url", target), ("token", "10fd54-1-1565068249069")]);
    FoldNone("gate.sc");
    GateEntry();
    assert GetParam(url.query, "url") == Str(target);
    SinglePathHit(url, 6, "/", SearchParam("url"), target);
  }

  lemma SafelinksEntry()
    ensures Sites[15] == ("gcc01.safelinks.protection.outlook.com", [("/", SearchParam("url"))])
  {
  }

  /** The link recorded beside the safelinks entry, `gcc01.safelinks.protection.outlook.com/?url=…`, redirects to `url`. */
  lemma SafelinksExample()
    ensures AnalyzeURL(Some(Url("gcc01.safelinks.protection.outlook.com", "/",
      [("url", "https://www.metro.tokyo.lg.jp/english/index.html")])))
      == Ok(Some("https://www.metro.tokyo.lg.jp/english/index.html"))
  {
    var host, target := "gcc01.safelinks.protection.outlook.com", "https://www.metro.tokyo.lg.jp/english/index.html";
    var url := Url(host, "/", [("url", target)]);
    assert host[24] != 'c';
    FoldNone(host);
    SafelinksEntry();
    assert GetParam(url.query, "url") == Str(target);
    SinglePathHit(url, 15, "/", SearchParam("url"), target);
  }

  /** `https://example.com:1234` loses everything from its last colon: the port goes, the scheme's colon stays. */
  lemma StripPortExample()
    ensures StripFromColon("https://example.com:1234") == Target
  {
    var s := "https://example.com:1234";
    assert s[20..] == "1234";
    StripFromColonAt(s, 19);
    assert s[..19] == Target;
  }

  /** With no port the last colon is the scheme's own, so only the scheme survives. */
  lemma StripSchemeExample()
    ensures StripFromColon(Target) == "https"
  {
    assert Target[6..] == "//example.com";
    StripFromColonAt(Target, 5);
  }

  /** `disq.us/url?url=https://example.com:1234` redirects to the parameter cut at its last colon. */
  lemma DisqExample()
    ensures AnalyzeURL(Some(Url("disq.us", "/url", [("url", "https://example.com:1234")]))) == Ok(Some(Target))
  {
    var url := Url("disq.us", "/url", [("url", "https://example.com:1234")]);
    ExactHostsKept();
    DisqEntry();
    assert GetParam(url.query, "url") == Str("https://example.com:1234");
    StrippedParam(url, "url", "https://example.com:1234");
    StripPortExample();
    SinglePathHit(url, 2, "/url", StripColon(SearchParam("url")), Target);
  }

  /** A host that is not registered, even after folding, yields no redirect. */
  lemma UnknownHostExample()
    ensures AnalyzeURL(Some(Url("unknownsite.example", "/foo", [("url", Target)]))) == Ok(None)
  {
    UnknownHostKept();
    UnknownHostAbsent();
  }

  lemma UnknownHostKept()
    ensures Fold("unknownsite.example") == "unknownsite.example"
  {
    var host := "unknownsite.example";
    assert host[8] != 'd';
    assert host[5] != 'c';
    FoldNone(host);
  }

  lemma UnknownHostAbsent()
    ensures "unknownsite.example" !in Names(Sites)
  {
    SitesKeys();
  }

  /** Decoding is a single pass: an escaped percent sign comes out as a plain `%` and is not decoded again. */
  lemma DecodeOnceExample()
    ensures DecodeURIComponent("%2541") == Ok("%41")
  {
    assert HexValue('2') == 2 && HexValue('5') == 5;
    DecodeEscape('2', '5', "41");
    assert ['%', '2', '5'] + "41" == "%2541";
    assert DecodeURIComponent("41") == Ok("41");
    assert [(37 as char)] + "41" == "%41";
  }

  /** `%2f` in front decodes to `/`. */
  lemma DecodeSlash(rest: string, t: string)
    requires DecodeURIComponent(rest) == Ok(t)
    ensures DecodeURIComponent("%2f" + rest) == Ok("/" + t)
  {
    assert HexValue('2') == 2 && HexValue('f') == 15;
    DecodeEscape('2', 'f', rest);
    assert ['%', '2', 'f'] + rest == "%2f" + rest;
    assert [(47 as char)] + t == "/" + t;
  }

  /** `%3a` in front decodes to `:`. */
  lemma DecodeColon(rest: string, t: string)
    requires DecodeURIComponent(rest) == Ok(t)
    ensures DecodeURIComponent("%3a" + rest) == Ok(":" + t)
  {
    assert HexValue('3') == 3 && HexValue('a') == 10;
    DecodeEscape('3', 'a', rest);
    assert ['%', '3', 'a'] + rest == "%3a" + rest;
    assert [(58 as char)] + t == ":" + t;
  }

  /** A URL whose `:` and `/` separators are escaped decodes to `scheme://host/file` when the parts hold no escapes. */
  lemma DecodeEscapedUrl(scheme: string, host: string, file: string)
    requires '%' !in scheme && '%' !in host && '%' !in file
    ensures DecodeURIComponent(scheme + ("%3a" + ("%2f" + ("%2f" + (host + ("%2f" + file)))))) ==
      Ok(scheme + (":" + ("/" + ("/" + (host + ("/" + file))))))
  {
    var e1 := "%2f" + file;
    DecodeSlash(file, file);
    var e2 := host + e1;
    DecodeLiteralPrefix(host, e1);
    var e3 := "%2f" + e2;
    DecodeSlash(e2, host + ("/" + file));
    var e4 := "%2f" + e3;
    DecodeSlash(e3, "/" + (host + ("/" + file)));
    var e5 := "%3a" + e4;
    DecodeColon(e4, "/" + ("/" + (host + ("/" + file))));
    DecodeLiteralPrefix(scheme, e5);
  }

  /**
   * The escaped image URL split at its separators, as `ImgurDecodesByParts` takes it. Stated on its
   * own so the solver compares the literals once, away from any recursive function.
   */
  lemma ImgurEscapedParts()
    ensures "http" + ("%3a" + ("%2f" + ("%2f" + ("i.imgur.com" + ("%2f" + "1AjSgEH.png")))))
      == "http%3a%2f%2fi.imgur.com%2f1AjSgEH.png"
  {
  }

  /** The decoded image URL split at the same places. */
  lemma ImgurPlainParts()
    ensures "http" + (":" + ("/" + ("/" + ("i.imgur.com" + ("/" + "1AjSgEH.png")))))
      == "http://i.imgur.com/1AjSgEH.png"
  {
  }

  // The literals are parameters, pinned by `requires`, so the solver does not unfold recursive functions over them.
  lemma ImgurDecodesByParts(scheme: string, host: string, file: string)
    requires scheme == "http" && host == "i.imgur.com" && file == "1AjSgEH.png"
    ensures DecodeURIComponent(scheme + ("%3a" + ("%2f" + ("%2f" + (host + ("%2f" + file)))))) ==
      Ok(scheme + (":" + ("/" + ("/" + (host + ("/" + file))))))
  {
    assert '%' !in scheme && '%' !in host && '%' !in file;
    DecodeEscapedUrl(scheme, host, file);
  }

  /**
   * The value `searchParams` holds for `remoteUrl=http%253a%252f%252fi.imgur.com%252f1AjSgEH.png`
   * decodes once more to the image URL.
   */
  // `v` is a parameter pinned by `requires` so the solver does not unfold `DecodeURIComponent` over the literal.
  lemma CurseforgeDecode(v: string)
    requires v == "http%3a%2f%2fi.imgur.com%2f1AjSgEH.png"
    ensures DecodeURIComponent(v) == Ok("http://i.imgur.com/1AjSgEH.png")
  {
    ImgurEscapedParts();
    ImgurPlainParts();
    ImgurDecodesByParts("http", "i.imgur.com", "1AjSgEH.png");
  }

  lemma CurseforgeEntry()
    ensures Sites[0] == ("*.curseforge.com", [("/linkout", Decode(SearchParam("remoteUrl")))])
  {
  }

  /** `wow.curseforge.com/linkout?remoteUrl=http%253a%252f...` folds onto `*.curseforge.com` and decodes the parameter once more. */
  lemma CurseforgeExample()
    ensures AnalyzeURL(Some(Url("wow.curseforge.com", "/linkout",
      [("remoteUrl", "http%3a%2f%2fi.imgur.com%2f1AjSgEH.png")]))) == Ok(Some("http://i.imgur.com/1AjSgEH.png"))
  {
    var v := "http%3a%2f%2fi.imgur.com%2f1AjSgEH.png";
    var url := Url("wow.curseforge.com", "/linkout", [("remoteUrl", v)]);
    NoDotBoundary();
    CurseforgeEntry();
    assert GetParam(url.query, "remoteUrl") == Str(v);
    DecodedParam(url, "remoteUrl", v);
    CurseforgeDecode(v);
    SinglePathHit(url, 0, "/linkout", Decode(SearchParam("remoteUrl")), "http://i.imgur.com/1AjSgEH.png");
  }

  lemma GoogleEntry()
    ensures Sites[10] == ("www.google.com", GooglePathnames)
  {
  }

  /** Google's `/url` path: `/imgres` is not a prefix of `/url`, and `find` takes `q` first. */
  lemma GoogleUrlTable(url: Url)
    requires url.pathname == "/url" && GetParam(url.query, "q") == Str(Target)
    ensures FirstMatch(GooglePathnames, url) == Ok(Str(Target))
  {
    var t := GooglePathnames;
    assert !(t[0].0 <= url.pathname) by { assert t[0].0[1] != url.pathname[1]; }
    assert FirstPresent(url.query, ["q", "url"]) == Str(Target);
    assert FirstMatch(t[1..][1..], url) == Ok(Undefined);
  }

  /** `www.google.com/url?q=https://example.com` redirects to `q`. */
  lemma GoogleUrlExample()
    ensures AnalyzeURL(Some(Url("www.google.com", "/url", [("q", Target)]))) == Ok(Some(Target))
  {
    var url := Url("www.google.com", "/url", [("q", Target)]);
    ExactHostsKept();
    GoogleEntry();
    assert GetParam(url.query, "q") == Str(Target);
    GoogleUrlTable(url);
    AnalyzeRegistered(url, 10);
  }

  /** Google's `/imgres` path: with `imgurl` absent, `find` falls back to `imgrefurl`. */
  lemma GoogleImgresTable(url: Url)
    requires url.pathname == "/imgres" && GetParam(url.query, "imgurl") == Null
    requires GetParam(url.query, "imgrefurl") == Str(Target)
    ensures FirstMatch(GooglePathnames, url) == Ok(Str(Target))
  {
    FirstPresentAt(url.query, ["imgurl", "imgrefurl"], 1);
  }

  /** `www.google.com/imgres?imgrefurl=https://example.com` redirects to `imgrefurl`. */
  lemma GoogleImgresExample()
    ensures AnalyzeURL(Some(Url("www.google.com", "/imgres", [("imgrefurl", Target)]))) == Ok(Some(Target))
  {
    var url := Url("www.google.com", "/imgres", [("imgrefurl", Target)]);
    ExactHostsKept();
    GoogleEntry();
    assert GetParam(url.query, "imgurl") == Null;
    assert GetParam(url.query, "imgrefurl") == Str(Target);
    GoogleImgresTable(url);
    AnalyzeRegistered(url, 10);
  }

  lemma MozawsEntry()
    ensures Sites[14] == ("outgoing.prod.mozaws.net", [("/v1/", Decode(PickLastSlash(Pathname)))])
  {
  }

  lemma MozawsHostKept()
    ensures Fold("outgoing.prod.mozaws.net") == "outgoing.prod.mozaws.net"
  {
    var host := "outgoing.prod.mozaws.net";
    assert host[13] != 'd';
    assert host[23] != 'm';
    FoldNone(host);
  }

  /**
   * A mozaws link-out path `/v1/<head>/<segment>` redirects to its last segment alone, decoded:
   * an embedded URL whose slashes are left unescaped is cut down to the text after its last slash.
   */
  lemma MozawsLastSegment(url: Url, head: string, segment: string)
    requires url.host == "outgoing.prod.mozaws.net" && url.pathname == "/v1/" + head + "/" + segment
    requires segment != "" && '/' !in segment && '%' !in segment
    ensures AnalyzeURL(Some(url)) == Ok(Some(segment))
  {
    MozawsHostKept();
    MozawsEntry();
    var i := |"/v1/" + head|;
    assert url.pathname[i] == '/' && url.pathname[i + 1..] == segment;
    PickFromLastSlashAt(url.pathname, i);
    LastSegmentDecoded(url);
    SinglePathHit(url, 14, "/v1/", Decode(PickLastSlash(Pathname)), segment);
  }

  /**
   * The link recorded beside the mozaws entry, `/v1/<hash>/https%3A//developer.mozilla.org/.../Match_patterns`,
   * keeps the slashes of its embedded URL, so it redirects to `Match_patterns` alone, whatever `head` holds.
   * `segment` is a parameter pinned by `requires` so the solver does not unfold recursive functions over the literal.
   */
  lemma MozawsExample(head: string, segment: string)
    requires segment == "Match_patterns"
    ensures AnalyzeURL(Some(Url("outgoing.prod.mozaws.net", "/v1/" + head + "/" + segment, []))) == Ok(Some(segment))
  {
    MozawsSegmentPlain(segment);
    MozawsLastSegment(Url("outgoing.prod.mozaws.net", "/v1/" + head + "/" + segment, []), head, segment);
  }

  /** The recorded segment has no `/` and no escape; stated on its own so the literal is inspected once. */
  lemma MozawsSegmentPlain(segment: string)
    requires segment == "Match_patterns"
    ensures segment != "" && '/' !in segment && '%' !in segment
  {
  }

  /** A URL that does not parse makes `new URL` throw. */
  lemma UnparsableExample()
    ensures AnalyzeURL(None) == Err(TypeError)
  {
  }
}
