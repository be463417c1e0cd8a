/** `get_wp_targets` end to end: the dorks of a domain suffix, the dork loop
    over what the search service yields for each of them, and the final
    `list(found_urls)[:total_limit]`. */
module Targets {
  import opened Wrappers
  import opened Strings
  import opened RootDomain
  import opened DorkQueries
  import opened Discovery

  /** `search(dork, num_results=per_dork_limit)` for each dork, the search
      service being a parameter. */
  function Streams(dorks: seq<string>, search: (string, int) -> SearchStream, perDorkLimit: int): (ss: seq<SearchStream>)
    ensures |ss| == |dorks|
    ensures forall i :: 0 <= i < |ss| ==> ss[i] == search(dorks[i], perDorkLimit)
  {
    seq(|dorks|, i requires 0 <= i < |dorks| => search(dorks[i], perDorkLimit))
  }

  /** `list(found_urls)`: every element of the set exactly once, in an order
      the language leaves open (hence the arbitrary choice below). */
  method ListOfSet(s: set<string>) returns (xs: seq<string>)
    ensures Distinct(xs)
    ensures forall x :: x in xs <==> x in s
    ensures |xs| == |s|
  {
    xs := [];
    var rest := s;
    while rest != {}
      invariant rest <= s
      invariant Distinct(xs)
      invariant forall x :: x in xs <==> x in s && x !in rest
      invariant |xs| + |rest| == |s|
      decreases |rest|
    {
      var x :| x in rest;
      xs := xs + [x];
      rest := rest - {x};
    }
  }

  /** Length of Python's `xs[:stop]` on a list of length `n`; a negative stop
      counts from the end. */
  function SliceLength(n: nat, stop: int): nat {
    if stop >= 0 then Min(stop, n) else Max(0, n + stop)
  }

  /** The dork loop run on the five dorks of `siteDomain`. */
  function DorkTrace(siteDomain: string, totalLimit: int, perDorkLimit: int, search: (string, int) -> SearchStream): Trace {
    Discover(Streams(Dorks(siteDomain), search, perDorkLimit), {}, totalLimit, perDorkLimit)
  }

  /** The roots collected by the dork loop for `siteDomain`. */
  function FoundRoots(siteDomain: string, totalLimit: int, perDorkLimit: int, search: (string, int) -> SearchStream): set<string> {
    DorkTrace(siteDomain, totalLimit, perDorkLimit, search).found
  }

  /** `x` is the root of the `k`-th URL of the `i`-th dork's stream, and the
      loop opened that dork and read that URL (which lies within the
      per-dork cap). */
  predicate TookRoot(siteDomain: string, totalLimit: int, perDorkLimit: int, search: (string, int) -> SearchStream, i: int, k: int, x: string) {
    var t := DorkTrace(siteDomain, totalLimit, perDorkLimit, search);
    && 0 <= i < |t.runs| && i < 5
    && 0 <= k < t.runs[i].consumed && k < Cap(perDorkLimit)
    && k < |search(Dorks(siteDomain)[i], perDorkLimit).items|
    && MatchRoot(search(Dorks(siteDomain)[i], perDorkLimit).items[k]) == Some(x)
  }

  /** `list(found_urls)[:total_limit]`: a duplicate-free selection of the
      set, as long as the slice, the whole set when the limit allows it. */
  method TruncateFound(found: set<string>, totalLimit: int) returns (targets: seq<string>)
    ensures Distinct(targets)
    ensures forall x :: x in targets ==> x in found
    ensures totalLimit >= 0 ==> |targets| == Min(totalLimit, |found|)
    ensures totalLimit < 0 ==> |targets| == Max(0, |found| + totalLimit)
    ensures totalLimit >= |found| ==> forall x :: x in found ==> x in targets
  {
    var all := ListOfSet(found);
    targets := all[..SliceLength(|all|, totalLimit)];
    assert forall x :: x in targets ==> x in all;
    if totalLimit >= |found| {
      assert targets == all;
    }
  }

  /** Every collected root is the root of a URL that the loop read from the
      stream of one of the five dorks it opened, within the per-dork cap. */
  lemma FoundFromDorks(siteDomain: string, totalLimit: int, perDorkLimit: int, search: (string, int) -> SearchStream, x: string)
    requires x in FoundRoots(siteDomain, totalLimit, perDorkLimit, search)
    ensures exists i, k :: TookRoot(siteDomain, totalLimit, perDorkLimit, search, i, k, x)
  {
    var streams := Streams(Dorks(siteDomain), search, perDorkLimit);
    FoundIsConsumedRoots(streams, {}, totalLimit, perDorkLimit, x);
    PerDorkLimit(streams, {}, totalLimit, perDorkLimit);
    var t := Discover(streams, {}, totalLimit, perDorkLimit);
    var i, k :| 0 <= i < |t.runs| && i < |streams| && 0 <= k < t.runs[i].consumed && k < |streams[i].items|
                && MatchRoot(streams[i].items[k]) == Some(x);
    assert streams[i] == search(Dorks(siteDomain)[i], perDorkLimit);
    assert TookRoot(siteDomain, totalLimit, perDorkLimit, search, i, k, x);
  }

  /** At most `Cap(perDorkLimit)` roots per dork, five dorks. */
  lemma FoundRootsBound(siteDomain: string, totalLimit: int, perDorkLimit: int, search: (string, int) -> SearchStream)
    ensures |FoundRoots(siteDomain, totalLimit, perDorkLimit, search)| <= 5 * Cap(perDorkLimit)
  {
    FoundBound(Streams(Dorks(siteDomain), search, perDorkLimit), {}, totalLimit, perDorkLimit);
  }

  /** `get_wp_targets(site_domain, total_limit, per_dork_limit, ...)`. The
      result has no duplicates, holds only collected roots, each the root of
      a URL the loop read from an opened dork, and is as long as the slice
      `[:total_limit]` of the collected set. */
  method GetWpTargets(siteDomain: string, totalLimit: int, perDorkLimit: int, search: (string, int) -> SearchStream)
    returns (targets: seq<string>)
    ensures var found := FoundRoots(siteDomain, totalLimit, perDorkLimit, search);
      && Distinct(targets)
      && (forall x :: x in targets ==> x in found)
      && (totalLimit >= 0 ==> |targets| == Min(totalLimit, |found|))
      && (totalLimit < 0 ==> |targets| == Max(0, |found| + totalLimit))
      && (totalLimit >= |found| ==> forall x :: x in found ==> x in targets)
    ensures |targets| <= 5 * Cap(perDorkLimit)
    ensures forall x :: x in targets ==>
      exists i, k :: TookRoot(siteDomain, totalLimit, perDorkLimit, search, i, k, x)
  {
    var found := FoundRoots(siteDomain, totalLimit, perDorkLimit, search);
    FoundRootsBound(siteDomain, totalLimit, perDorkLimit, search);
    forall x | x in found
      ensures exists i, k :: TookRoot(siteDomain, totalLimit, perDorkLimit, search, i, k, x)
    {
      FoundFromDorks(siteDomain, totalLimit, perDorkLimit, search, x);
    }
    targets := TruncateFound(found, totalLimit);
  }
}
