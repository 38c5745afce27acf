/**
 * The decision half of the website blocker content script: normalise the
 * page's host name, read the block list and the enabled flag with their
 * defaults, and block when some list entry and the domain contain one
 * another.
 */
module Blocker {
  import opened Wrappers
  import opened Storage
  import opened Strings

  const Www := "www."
  const BlockedWebsitesKey := "blockedWebsites"
  const BlockingEnabledKey := "blockingEnabled"

  /** `window.location.hostname.replace('www.', '')`. */
  function Domain(hostname: string): string
  {
    ReplaceFirst(hostname, Www, "")
  }

  /** A host whose first "www." comes after the prefix `a` loses exactly that one. */
  lemma DomainDropsFirstWww(a: string, b: string)
    requires forall j :: 0 <= j < |a| ==> !OccursAt(a + Www + b, Www, j)
    ensures Domain(a + Www + b) == a + b
  {
    ReplaceFirstAt(a, Www, b, "");
    assert a + "" + b == a + b;
  }

  /** A host without "www." is its own domain. */
  lemma DomainWithoutWww(hostname: string)
    requires !Includes(hostname, Www)
    ensures Domain(hostname) == hostname
  {
    ReplaceFirstAbsent(hostname, Www, "");
  }

  /** Only the first of two leading "www." is removed. */
  lemma DomainOfDoubleWww()
    ensures Domain("www.www.example.com") == "www.example.com"
  {
    DomainDropsFirstWww("", "www.example.com");
  }

  /** `result.blockedWebsites || []`, and then whether `.some` can be applied. */
  datatype BlockList = Entries(sites: seq<string>) | Malformed

  function BlockedWebsites(stored: Store): (l: BlockList)
    ensures !Truthy(Get(stored, BlockedWebsitesKey)) ==> l == Entries([])
    ensures BlockedWebsitesKey in stored && stored[BlockedWebsitesKey].List? ==>
              l == Entries(stored[BlockedWebsitesKey].items)
    ensures Truthy(Get(stored, BlockedWebsitesKey)) && !stored[BlockedWebsitesKey].List? ==> l == Malformed
  {
    var v := Get(stored, BlockedWebsitesKey);
    if !Truthy(v) then Entries([])
    else match v.value
      case List(items) => Entries(items)
      case _ => Malformed
  }

  /** `result.blockingEnabled || false`, read as a condition. */
  predicate BlockingEnabled(stored: Store)
  {
    Truthy(Get(stored, BlockingEnabledKey))
  }

  /** The callback given to `some`: either string contains the other. */
  predicate Matches(domain: string, site: string)
  {
    Includes(domain, site) || Includes(site, domain)
  }

  /** Matching a domain against a one-entry list gives the same answer with the two swapped. */
  lemma MatchesSymmetric(a: string, b: string)
    ensures AnyMatches(a, [b]) <==> AnyMatches(b, [a])
  {
    assert [b][1..] == [] && [a][1..] == [];
  }

  /** `sites.some(site => Matches(domain, site))`. */
  predicate AnyMatches(domain: string, sites: seq<string>)
  {
    |sites| > 0 && (Matches(domain, sites[0]) || AnyMatches(domain, sites[1..]))
  }

  lemma {:induction false} AnyMatchesIff(domain: string, sites: seq<string>)
    ensures AnyMatches(domain, sites) <==> exists i :: 0 <= i < |sites| && Matches(domain, sites[i])
  {
    if |sites| > 0 {
      AnyMatchesIff(domain, sites[1..]);
      if exists i :: 0 <= i < |sites| && Matches(domain, sites[i]) {
        var i :| 0 <= i < |sites| && Matches(domain, sites[i]);
        if i > 0 {
          assert sites[1..][i - 1] == sites[i];
        }
      }
      if exists j :: 0 <= j < |sites| - 1 && Matches(domain, sites[1..][j]) {
        var j :| 0 <= j < |sites| - 1 && Matches(domain, sites[1..][j]);
        assert sites[j + 1] == sites[1..][j];
      }
    }
  }

  /** The decision `checkAndBlockWebsite` takes before showing the block page. */
  predicate ShouldBlock(stored: Store, hostname: string)
  {
    BlockingEnabled(stored) &&
    match BlockedWebsites(stored)
    case Malformed => false
    case Entries(sites) => |sites| > 0 && AnyMatches(Domain(hostname), sites)
  }

  /** The block decision, stated without the recursive `some`. */
  lemma ShouldBlockIff(stored: Store, hostname: string)
    ensures ShouldBlock(stored, hostname) <==>
            BlockingEnabled(stored) && BlockedWebsites(stored).Entries? &&
            exists i :: 0 <= i < |BlockedWebsites(stored).sites| &&
                        Matches(Domain(hostname), BlockedWebsites(stored).sites[i])
  {
    if BlockedWebsites(stored).Entries? {
      AnyMatchesIff(Domain(hostname), BlockedWebsites(stored).sites);
    }
  }

  /** Disabled blocking, a missing or empty list, or a list of the wrong type: nothing is blocked. */
  lemma GateBlocksNothing(stored: Store, hostname: string)
    requires !BlockingEnabled(stored) || BlockedWebsites(stored) in {Entries([]), Malformed}
    ensures !ShouldBlock(stored, hostname)
  {
  }

  /** A listed domain is blocked whenever blocking is enabled. */
  lemma ListedDomainBlocked(stored: Store, hostname: string)
    requires BlockingEnabled(stored)
    requires BlockedWebsites(stored).Entries?
    requires Domain(hostname) in BlockedWebsites(stored).sites
    ensures ShouldBlock(stored, hostname)
  {
    var sites := BlockedWebsites(stored).sites;
    var i :| 0 <= i < |sites| && sites[i] == Domain(hostname);
    IncludesSelfAndEmpty(Domain(hostname));
    AnyMatchesIff(Domain(hostname), sites);
  }

  /** Adding entries to the list never unblocks a domain. */
  lemma BlockingMonotone(stored: Store, hostname: string, more: seq<string>)
    requires BlockedWebsites(stored).Entries?
    requires forall s :: s in BlockedWebsites(stored).sites ==> s in more
    ensures ShouldBlock(stored, hostname) ==>
            ShouldBlock(stored[BlockedWebsitesKey := List(more)], hostname)
  {
    var sites := BlockedWebsites(stored).sites;
    var d := Domain(hostname);
    if ShouldBlock(stored, hostname) {
      AnyMatchesIff(d, sites);
      var i :| 0 <= i < |sites| && Matches(d, sites[i]);
      assert sites[i] in more;
      var j :| 0 <= j < |more| && more[j] == sites[i];
      AnyMatchesIff(d, more);
      var stored' := stored[BlockedWebsitesKey := List(more)];
      assert BlockedWebsites(stored') == Entries(more);
      assert BlockingEnabled(stored') by {
        assert Get(stored', BlockingEnabledKey) == Get(stored, BlockingEnabledKey);
      }
    }
  }

  /** An empty entry matches every domain, so it blocks every page. */
  lemma EmptyEntryBlocksEverything(stored: Store, hostname: string)
    requires BlockingEnabled(stored)
    requires BlockedWebsites(stored).Entries?
    requires "" in BlockedWebsites(stored).sites
    ensures ShouldBlock(stored, hostname)
  {
    var sites := BlockedWebsites(stored).sites;
    var i :| 0 <= i < |sites| && sites[i] == "";
    IncludesSelfAndEmpty(Domain(hostname));
    AnyMatchesIff(Domain(hostname), sites);
  }
}
