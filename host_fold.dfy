/**
 * Subdomain folding: a host ending in one of the registered base domains, with at least one
 * character before it, is looked up under the wildcard key `*.` + domain.
 */
module HostFold {
  import opened JsCore
  import opened Registry

  /** The test `subdomain` applies: `expectedIndex > 0 && host.lastIndexOf(domain) === expectedIndex`. */
  predicate FoldsOnto(host: string, d: string) {
    |host| - |d| > 0 && LastIndexOf(host, d) == |host| - |d|
  }

  /** `d` ends `host`, and at least one character of `host` comes before it. */
  predicate IsProperSuffix(d: string, host: string) {
    |d| < |host| && host[|host| - |d|..] == d
  }

  /** The `lastIndexOf` test is exactly a proper-suffix test: there is no check for a dot before the domain. */
  lemma FoldsOntoIffProperSuffix(host: string, d: string)
    ensures FoldsOnto(host, d) <==> IsProperSuffix(d, host)
  {
    var e := |host| - |d|;
    if IsProperSuffix(d, host) {
      assert OccursAt(host, d, e);
    }
  }

  /** The loop of `subdomain` over `ds` as a function: the first domain the host folds onto decides. */
  function FoldFrom(host: string, ds: seq<string>): string {
    if ds == [] then host
    else if FoldsOnto(host, ds[0]) then "*." + ds[0]
    else FoldFrom(host, ds[1..])
  }

  /** `subdomain(host)` over the registered `domains`. */
  function Fold(host: string): string {
    FoldFrom(host, Domains)
  }

  /** `subdomain`: the indexed loop over `domains`, returning at the first domain the host folds onto. */
  method Subdomain(host: string) returns (r: string)
    ensures r == Fold(host)
  {
    var hostLength := |host|;
    var i := 0;
    while i < |Domains|
      invariant 0 <= i <= |Domains|
      invariant Fold(host) == FoldFrom(host, Domains[i..])
    {
      assert Domains[i..][1..] == Domains[i + 1..];
      var domain := Domains[i];
      var expectedIndex := hostLength - |domain|;
      if expectedIndex > 0 && LastIndexOf(host, domain) == expectedIndex {
        return "*." + domain;
      }
      i := i + 1;
    }
    r := host;
  }

  /** Fold rule: the first domain in list order that properly ends the host gives the wildcard key. */
  lemma {:induction false} FoldFromFirstSuffix(host: string, ds: seq<string>, i: nat)
    requires i < |ds| && IsProperSuffix(ds[i], host)
    requires forall j :: 0 <= j < i ==> !IsProperSuffix(ds[j], host)
    ensures FoldFrom(host, ds) == "*." + ds[i]
  {
    FoldsOntoIffProperSuffix(host, ds[0]);
    if i > 0 {
      FoldFromFirstSuffix(host, ds[1..], i - 1);
    }
  }

  /** Fold rule: a host that no domain properly ends is returned unchanged. */
  lemma {:induction false} FoldFromNoSuffix(host: string, ds: seq<string>)
    requires forall j :: 0 <= j < |ds| ==> !IsProperSuffix(ds[j], host)
    ensures FoldFrom(host, ds) == host
  {
    if ds != [] {
      FoldsOntoIffProperSuffix(host, ds[0]);
      FoldFromNoSuffix(host, ds[1..]);
    }
  }

  /** Every result of the loop is the host itself or the wildcard key of a domain that properly ends it. */
  lemma {:induction false} FoldFromCases(host: string, ds: seq<string>)
    ensures FoldFrom(host, ds) == host ||
      exists i :: 0 <= i < |ds| && IsProperSuffix(ds[i], host) && FoldFrom(host, ds) == "*." + ds[i]
  {
    if ds != [] {
      FoldsOntoIffProperSuffix(host, ds[0]);
      if !FoldsOnto(host, ds[0]) {
        FoldFromCases(host, ds[1..]);
        if FoldFrom(host, ds) != host {
          var i :| 0 <= i < |ds[1..]| && IsProperSuffix(ds[1..][i], host) && FoldFrom(host, ds[1..]) == "*." + ds[1..][i];
          assert ds[i + 1] == ds[1..][i];
        }
      }
    }
  }

  /** `subdomain` on a host ending in `curseforge.com` after at least one character. */
  lemma FoldCurseforge(host: string)
    requires IsProperSuffix("curseforge.com", host)
    ensures Fold(host) == "*.curseforge.com"
  {
    FoldFromFirstSuffix(host, Domains, 0);
  }

  /** `subdomain` on a host ending in `digidip.net`, which cannot also end in `curseforge.com`. */
  lemma FoldDigidip(host: string)
    requires IsProperSuffix("digidip.net", host)
    ensures Fold(host) == "*.digidip.net"
  {
    assert host[|host| - 1] == 't';
    FoldFromFirstSuffix(host, Domains, 1);
  }

  /** `subdomain` on a host that ends in neither domain (after at least one character) keeps it. */
  lemma FoldNone(host: string)
    requires !IsProperSuffix("curseforge.com", host) && !IsProperSuffix("digidip.net", host)
    ensures Fold(host) == host
  {
    FoldFromNoSuffix(host, Domains);
  }

  /** The three outcomes of `subdomain` over the registered domains. */
  lemma FoldOutcomes(host: string)
    ensures Fold(host) == host || Fold(host) == "*.curseforge.com" || Fold(host) == "*.digidip.net"
  {
    FoldFromPair(host, Domains);
  }

  /** Over a list of two domains the loop has three outcomes. */
  lemma FoldFromPair(host: string, ds: seq<string>)
    requires |ds| == 2
    ensures FoldFrom(host, ds) in {host, "*." + ds[0], "*." + ds[1]}
  {
    var tail := ds[1..];
    assert tail[0] == ds[1] && tail[1..] == [];
    assert FoldFrom(host, tail) in {host, "*." + ds[1]};
  }

  /** Every folded result is a key of `sites`; an unfolded result is the host itself. */
  lemma FoldLandsInRegistry(host: string)
    ensures Fold(host) == host || Fold(host) in Names(Sites)
  {
    FoldOutcomes(host);
    var keys := Names(Sites);
    assert keys[0] == "*.curseforge.com" && keys[1] == "*.digidip.net";
  }

  /** Folding is idempotent: `subdomain` maps an already folded key to itself. */
  lemma FoldIdempotent(host: string)
    ensures Fold(Fold(host)) == Fold(host)
  {
    FoldOutcomes(host);
    var f := Fold(host);
    if f == "*.curseforge.com" {
      WildcardKeyFolds("curseforge.com");
      FoldCurseforge(f);
    } else if f == "*.digidip.net" {
      WildcardKeyFolds("digidip.net");
      FoldDigidip(f);
    }
  }

  /** The wildcard key of a domain ends properly in that domain. */
  lemma WildcardKeyFolds(d: string)
    ensures IsProperSuffix(d, "*." + d)
  {
    assert ("*." + d)[2..] == d;
  }

  /** A host equal to a bare domain is not folded: there is no character before the domain. */
  lemma BareDomainKept()
    ensures Fold("curseforge.com") == "curseforge.com"
    ensures Fold("digidip.net") == "digidip.net"
  {
    FoldNone("curseforge.com");
    assert "digidip.net"[0] == 'd';
    FoldNone("digidip.net");
  }

  /** There is no dot boundary: any character before the domain is enough, so `evilcurseforge.com` folds. */
  lemma NoDotBoundary()
    ensures Fold("evilcurseforge.com") == "*.curseforge.com"
    ensures Fold("wow.curseforge.com") == "*.curseforge.com"
  {
    var h := "evilcurseforge.com";
    assert h[4..] == "curseforge.com";
    FoldCurseforge(h);
    var w := "wow.curseforge.com";
    assert w[4..] == "curseforge.com";
    FoldCurseforge(w);
  }
}
