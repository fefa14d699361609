/**
 * The static site registry: each redirector host (exact, or `*.`-prefixed for folded
 * subdomains) with its ordered table of path prefix and extractor, in declaration order.
 */
module Registry {
  import opened JsCore
  import opened PathPattern
  import opened Extractors

  /** The paths of one host, each with the extractor that runs when the path matches. */
  type PathTable = seq<(string, Extractor)>

  /** `googlePathnames`: `/imgres` tries `imgurl` then `imgrefurl`; `/url` tries `q` then `url`. */
  const GooglePathnames: PathTable := [
    ("/imgres", FirstParam(["imgurl", "imgrefurl"])),
    ("/url", FirstParam(["q", "url"]))
  ]

  /** `sites`, in key insertion order (every key is a non-integer string). */
  const Sites: seq<(string, PathTable)> := [
    ("*.curseforge.com", [("/linkout", Decode(SearchParam("remoteUrl")))]),
    ("*.digidip.net", [("/visit", SearchParam("url"))]),
    ("disq.us", [("/url", StripColon(SearchParam("url")))]),
    ("console.ebsta.com", [("/linktracking/track.aspx", SearchParam("linkuri"))]),
    ("exit.sc", [("/", SearchParam("url"))]),
    ("l.facebook.com", [("/l.php", SearchParam("u"))]),
    ("gate.sc", [("/", SearchParam("url"))]),
    ("www.google.co.jp", GooglePathnames),
    ("news.url.google.com", [("/url", SearchParam("url"))]),
    ("plus.url.google.com", [("/url", SearchParam("url"))]),
    ("www.google.com", GooglePathnames),
    ("l.instagram.com", [("/", SearchParam("u"))]),
    ("www.javlibrary.com", [("/en/redirect.php", SearchParam("url"))]),
    ("l.messenger.com", [("/l.php", SearchParam("u"))]),
    ("outgoing.prod.mozaws.net", [("/v1/", Decode(PickLastSlash(Pathname)))]),
    ("gcc01.safelinks.protection.outlook.com", [("/", SearchParam("url"))]),
    ("slack-redir.net", [("/link", SearchParam("url"))]),
    ("steamcommunity.com", [("/linkfilter/", SearchParam("url"))]),
    ("twitter.com", [("/i/redirect", SearchParam("url"))]),
    ("t.umblr.com", [("/redirect", SearchParam("z"))]),
    ("vk.com", [("/away.php", SearchParam("to"))]),
    ("workable.com", [("/nr", SearchParam("l"))]),
    ("www.youtube.com", [("/redirect", SearchParam("q"))])
  ]

  /** `domains`: the base domains whose subdomains fold onto a `*.` key, in the order they are tried. */
  const Domains: seq<string> := ["curseforge.com", "digidip.net"]

  /** `sites[host]`: the table of the first entry keyed `host`, or nothing. */
  function Lookup<V>(reg: seq<(string, V)>, host: string): (r: Option<V>)
    ensures r.None? <==> host !in Names(reg)
    ensures r.Some? ==> exists i :: 0 <= i < |reg| && reg[i] == (host, r.value) && host !in Names(reg)[..i]
  {
    var i := KeyIndex(reg, host);
    if i < 0 then None else Some(reg[i].1)
  }

  /** The entry at index `i` is what a lookup of its key finds, unless an earlier entry has the same key. */
  lemma LookupAt<V>(reg: seq<(string, V)>, i: nat)
    requires i < |reg| && reg[i].0 !in Names(reg)[..i]
    ensures Lookup(reg, reg[i].0) == Some(reg[i].1)
  {
    var k := KeyIndex(reg, reg[i].0);
    assert Names(reg)[k] == reg[i].0;
  }

  /** No two entries of `reg` share a key, as no two properties of an object literal do. */
  predicate KeysDistinct<V>(reg: seq<(string, V)>) {
    forall i, j :: 0 <= i < j < |reg| ==> reg[i].0 != reg[j].0
  }

  /** With distinct keys, `sites[host]` for the key of any entry is that entry's table. */
  lemma LookupDistinct<V>(reg: seq<(string, V)>, i: nat)
    requires KeysDistinct(reg) && i < |reg|
    ensures Lookup(reg, reg[i].0) == Some(reg[i].1)
  {
    var ns := Names(reg);
    forall k | 0 <= k < i ensures ns[..i][k] != reg[i].0 {
      assert ns[..i][k] == reg[k].0;
    }
    LookupAt(reg, i);
  }

  /** The number of (host, path) entries of `reg[k..]`. */
  function EntryCountFrom(reg: seq<(string, PathTable)>, k: nat): nat
    decreases |reg| - k
  {
    if k >= |reg| then 0 else |reg[k].1| + EntryCountFrom(reg, k + 1)
  }

  /** The number of (host, path) entries of the registry. */
  function EntryCount(reg: seq<(string, PathTable)>): nat {
    EntryCountFrom(reg, 0)
  }

  /** The hosts of `sites`, in order. */
  lemma SitesKeys()
    ensures Names(Sites) == [
      "*.curseforge.com", "*.digidip.net", "disq.us", "console.ebsta.com", "exit.sc",
      "l.facebook.com", "gate.sc", "www.google.co.jp", "news.url.google.com",
      "plus.url.google.com", "www.google.com", "l.instagram.com", "www.javlibrary.com",
      "l.messenger.com", "outgoing.prod.mozaws.net", "gcc01.safelinks.protection.outlook.com",
      "slack-redir.net", "steamcommunity.com", "twitter.com", "t.umblr.com", "vk.com",
      "workable.com", "www.youtube.com"]
  {
  }

  /** The 23 hosts of `sites` are pairwise different. */
  lemma SitesKeysDistinct()
    ensures KeysDistinct(Sites)
  {
    SitesKeys();
    var ns := Names(Sites);
    HostListDistinct(ns);
    forall i, j | 0 <= i < j < |Sites| ensures Sites[i].0 != Sites[j].0 {
      assert ns[i] == Sites[i].0 && ns[j] == Sites[j].0;
    }
  }

  // The host list is a parameter pinned by `requires` so the solver does not unfold `Names(Sites)` while comparing it.
  lemma HostListDistinct(ns: seq<string>)
    requires ns == [
      "*.curseforge.com", "*.digidip.net", "disq.us", "console.ebsta.com", "exit.sc",
      "l.facebook.com", "gate.sc", "www.google.co.jp", "news.url.google.com",
      "plus.url.google.com", "www.google.com", "l.instagram.com", "www.javlibrary.com",
      "l.messenger.com", "outgoing.prod.mozaws.net", "gcc01.safelinks.protection.outlook.com",
      "slack-redir.net", "steamcommunity.com", "twitter.com", "t.umblr.com", "vk.com",
      "workable.com", "www.youtube.com"]
    ensures forall i, j :: 0 <= i < j < |ns| ==> ns[i] != ns[j]
  {
  }

  lemma SitesEntryCountFrom12()
    ensures EntryCountFrom(Sites, 12) == 11
  {
    assert EntryCountFrom(Sites, 23) == 0;
    assert EntryCountFrom(Sites, 22) == 1;
    assert EntryCountFrom(Sites, 21) == 2;
    assert EntryCountFrom(Sites, 20) == 3;
    assert EntryCountFrom(Sites, 19) == 4;
    assert EntryCountFrom(Sites, 18) == 5;
    assert EntryCountFrom(Sites, 17) == 6;
    assert EntryCountFrom(Sites, 16) == 7;
    assert EntryCountFrom(Sites, 15) == 8;
    assert EntryCountFrom(Sites, 14) == 9;
    assert EntryCountFrom(Sites, 13) == 10;
    assert EntryCountFrom(Sites, 12) == 11;
  }

  /** `sites` has 23 hosts and 25 (host, path) entries. */
  lemma SitesSize()
    ensures |Sites| == 23 && EntryCount(Sites) == 25
  {
    SitesEntryCountFrom12();
    assert EntryCountFrom(Sites, 11) == 12;
    assert EntryCountFrom(Sites, 10) == 14;
    assert EntryCountFrom(Sites, 9) == 15;
    assert EntryCountFrom(Sites, 8) == 16;
    assert EntryCountFrom(Sites, 7) == 18;
    assert EntryCountFrom(Sites, 6) == 19;
    assert EntryCountFrom(Sites, 5) == 20;
    assert EntryCountFrom(Sites, 4) == 21;
    assert EntryCountFrom(Sites, 3) == 22;
    assert EntryCountFrom(Sites, 2) == 23;
    assert EntryCountFrom(Sites, 1) == 24;
    assert EntryCountFrom(Sites, 0) == 25;
  }

  /** Every registered path has the simple shape: no `*`, at most one `.`, no other metacharacter. */
  lemma SitesPathsSimple()
    ensures forall i, j :: 0 <= i < |Sites| && 0 <= j < |Sites[i].1| ==> SimplePath(Sites[i].1[j].0)
  {
    forall i, j | 0 <= i < |Sites| && 0 <= j < |Sites[i].1|
      ensures SimplePath(Sites[i].1[j].0)
    {
      if i < 3 {
        EntriesPathsSimple0To3(i, j);
      } else if i < 6 {
        EntriesPathsSimple3To6(i, j);
      } else if i < 9 {
        EntriesPathsSimple6To9(i, j);
      } else if i < 12 {
        EntriesPathsSimple9To12(i, j);
      } else if i < 15 {
        EntriesPathsSimple12To15(i, j);
      } else if i < 18 {
        EntriesPathsSimple15To18(i, j);
      } else if i < 21 {
        EntriesPathsSimple18To21(i, j);
      } else {
        EntriesPathsSimple21To23(i, j);
      }
    }
  }

  lemma EntriesPathsSimple0To3(i: nat, j: nat)
    requires 0 <= i < 3 && j < |Sites[i].1|
    ensures SimplePath(Sites[i].1[j].0)
  {
    if i == 0 {
      assert Sites[0].1[j].0 == "/linkout";
      PlainPathIsSimple("/linkout");
    } else if i == 1 {
      assert Sites[1].1[j].0 == "/visit";
      PlainPathIsSimple("/visit");
    } else {
      assert Sites[2].1[j].0 == "/url";
      PlainPathIsSimple("/url");
    }
  }

  lemma EntriesPathsSimple3To6(i: nat, j: nat)
    requires 3 <= i < 6 && j < |Sites[i].1|
    ensures SimplePath(Sites[i].1[j].0)
  {
    if i == 3 {
      assert Sites[3].1[j].0 == "/linktracking/track.aspx";
      OneDotPathIsSimple("/linktracking/track.aspx", "/linktracking/track", "aspx");
    } else if i == 4 {
      assert Sites[4].1[j].0 == "/";
      PlainPathIsSimple("/");
    } else {
      assert Sites[5].1[j].0 == "/l.php";
      OneDotPathIsSimple("/l.php", "/l", "php");
    }
  }

  lemma EntriesPathsSimple6To9(i: nat, j: nat)
    requires 6 <= i < 9 && j < |Sites[i].1|
    ensures SimplePath(Sites[i].1[j].0)
  {
    if i == 6 {
      assert Sites[6].1[j].0 == "/";
      PlainPathIsSimple("/");
    } else if i == 7 {
      assert Sites[7].1 == GooglePathnames;
      if j == 0 { PlainPathIsSimple("/imgres"); } else { PlainPathIsSimple("/url"); }
    } else {
      assert Sites[8].1[j].0 == "/url";
      PlainPathIsSimple("/url");
    }
  }

  lemma EntriesPathsSimple9To12(i: nat, j: nat)
    requires 9 <= i < 12 && j < |Sites[i].1|
    ensures SimplePath(Sites[i].1[j].0)
  {
    if i == 9 {
      assert Sites[9].1[j].0 == "/url";
      PlainPathIsSimple("/url");
    } else if i == 10 {
      assert Sites[10].1 == GooglePathnames;
      if j == 0 { PlainPathIsSimple("/imgres"); } else { PlainPathIsSimple("/url"); }
    } else {
      assert Sites[11].1[j].0 == "/";
      PlainPathIsSimple("/");
    }
  }

  lemma EntriesPathsSimple12To15(i: nat, j: nat)
    requires 12 <= i < 15 && j < |Sites[i].1|
    ensures SimplePath(Sites[i].1[j].0)
  {
    if i == 12 {
      assert Sites[12].1[j].0 == "/en/redirect.php";
      OneDotPathIsSimple("/en/redirect.php", "/en/redirect", "php");
    } else if i == 13 {
      assert Sites[13].1[j].0 == "/l.php";
      OneDotPathIsSimple("/l.php", "/l", "php");
    } else {
      assert Sites[14].1[j].0 == "/v1/";
      PlainPathIsSimple("/v1/");
    }
  }

  lemma EntriesPathsSimple15To18(i: nat, j: nat)
    requires 15 <= i < 18 && j < |Sites[i].1|
    ensures SimplePath(Sites[i].1[j].0)
  {
    if i == 15 {
      assert Sites[15].1[j].0 == "/";
      PlainPathIsSimple("/");
    } else if i == 16 {
      assert Sites[16].1[j].0 == "/link";
      PlainPathIsSimple("/link");
    } else {
      assert Sites[17].1[j].0 == "/linkfilter/";
      PlainPathIsSimple("/linkfilter/");
    }
  }

  lemma EntriesPathsSimple18To21(i: nat, j: nat)
    requires 18 <= i < 21 && j < |Sites[i].1|
    ensures SimplePath(Sites[i].1[j].0)
  {
    if i == 18 {
      assert Sites[18].1[j].0 == "/i/redirect";
      PlainPathIsSimple("/i/redirect");
    } else if i == 19 {
      assert Sites[19].1[j].0 == "/redirect";
      PlainPathIsSimple("/redirect");
    } else {
      assert Sites[20].1[j].0 == "/away.php";
      OneDotPathIsSimple("/away.php", "/away", "php");
    }
  }

  lemma EntriesPathsSimple21To23(i: nat, j: nat)
    requires 21 <= i < 23 && j < |Sites[i].1|
    ensures SimplePath(Sites[i].1[j].0)
  {
    if i == 21 {
      assert Sites[21].1[j].0 == "/nr";
      PlainPathIsSimple("/nr");
    } else {
      assert Sites[22].1[j].0 == "/redirect";
      PlainPathIsSimple("/redirect");
    }
  }
}
