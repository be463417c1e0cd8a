/** The dork loop of `get_wp_targets`: every dork's result stream is consumed
    up to the per-dork limit, extracted roots are collected in a set, a
    failing stream keeps what it added and moves on to the next dork, and
    the total limit is checked only after a dork that finished normally. */
module Discovery {
  import opened Wrappers
  import opened Strings
  import opened RootDomain

  /** What `search(dork, num_results=...)` yields: finitely many URLs, after
      which the generator either stops or raises. */
  datatype SearchStream = SearchStream(items: seq<string>, raises: bool)

  /** The outcome of one dork: the found set after it, how many URLs were
      taken from its stream, and whether the stream raised. */
  datatype DorkRun = DorkRun(found: set<string>, consumed: nat, failed: bool)

  /** A whole discovery: the final found set and one run for every dork whose
      stream was opened, in dork order. */
  datatype Trace = Trace(found: set<string>, runs: seq<DorkRun>)

  /** The roots contributed by one URL: its match, or nothing. */
  function RootOf(url: string): set<string> {
    match MatchRoot(url)
    case Some(m) => {m}
    case None => {}
  }

  /** Adds the URL's match to the set, if it has one. */
  function AddRoot(found: set<string>, url: string): (r: set<string>)
    ensures found <= r && |r| <= |found| + 1
    ensures r == found <==> MatchRoot(url).None? || MatchRoot(url).value in found
    ensures forall x :: x in r && x !in found ==> MatchRoot(url) == Some(x)
  {
    found + RootOf(url)
  }

  /** The roots of a sequence of URLs. */
  function Roots(urls: seq<string>): set<string> {
    if |urls| == 0 then {} else RootOf(urls[0]) + Roots(urls[1..])
  }

  /** A root is collected exactly when some URL of the sequence has it as its match. */
  lemma {:induction false} RootsMembers(urls: seq<string>, x: string)
    ensures x in Roots(urls) <==> exists k :: 0 <= k < |urls| && MatchRoot(urls[k]) == Some(x)
  {
    if |urls| > 0 {
      RootsMembers(urls[1..], x);
      if x in Roots(urls[1..]) {
        var k :| 0 <= k < |urls[1..]| && MatchRoot(urls[1..][k]) == Some(x);
        assert urls[k + 1] == urls[1..][k];
      }
      if exists k :: 0 <= k < |urls| && MatchRoot(urls[k]) == Some(x) {
        var k :| 0 <= k < |urls| && MatchRoot(urls[k]) == Some(x);
        if k > 0 {
          assert urls[1..][k - 1] == urls[k];
        }
      }
    }
  }

  /** The roots of the first `n` URLs are the matches of those URLs. */
  lemma RootsOfTake(urls: seq<string>, n: nat, x: string)
    requires n <= |urls|
    ensures x in Roots(urls[..n]) <==> exists k :: 0 <= k < n && k < |urls| && MatchRoot(urls[k]) == Some(x)
  {
    RootsMembers(urls[..n], x);
    if x in Roots(urls[..n]) {
      var k :| 0 <= k < n && MatchRoot(urls[..n][k]) == Some(x);
      assert urls[..n][k] == urls[k];
    }
    if exists k :: 0 <= k < n && k < |urls| && MatchRoot(urls[k]) == Some(x) {
      var k :| 0 <= k < n && k < |urls| && MatchRoot(urls[k]) == Some(x);
      assert urls[..n][k] == urls[k];
    }
  }

  /** Collecting from n URLs yields at most n distinct roots. */
  lemma {:induction false} RootsSize(urls: seq<string>)
    ensures |Roots(urls)| <= |urls|
  {
    if |urls| > 0 {
      RootsSize(urls[1..]);
    }
  }

  lemma RootsOfPrefix(items: seq<string>, n: nat)
    requires 0 < n <= |items|
    ensures Roots(items[..n]) == RootOf(items[0]) + Roots(items[1..][..n - 1])
    ensures n == 1 ==> Roots(items[..n]) == RootOf(items[0])
  {
    assert items[..n][1..] == items[1..][..n - 1];
    if n == 1 {
      assert items[1..][..0] == [];
    }
  }

  /** How many URLs the loop takes at most: `count >= per_dork_limit` is
      checked after each URL, so even a limit below 1 lets one URL through. */
  function Cap(perDorkLimit: int): nat {
    if perDorkLimit < 1 then 1 else perDorkLimit
  }

  /** What the loop of one dork promises when resumed after `count` URLs. */
  ghost predicate ConsumedFrom(found: set<string>, items: seq<string>, raises: bool, perDorkLimit: int, count: nat, r: DorkRun)
    requires count < Cap(perDorkLimit)
  {
    var n := Min(|items|, Cap(perDorkLimit) - count);
    && r.consumed == count + n
    && r.failed == (raises && |items| < Cap(perDorkLimit) - count)
    && r.found == found + Roots(items[..n])
  }

  /** Adding the first URL's root and then the roots of the next n - 1
      URLs collects the roots of the first n. */
  lemma AddThenRoots(found: set<string>, items: seq<string>, n: nat)
    requires 0 < n <= |items|
    ensures AddRoot(found, items[0]) + Roots(items[1..][..n - 1]) == found + Roots(items[..n])
  {
    assert AddRoot(found, items[0]) == found + RootOf(items[0]);
    RootsOfPrefix(items, n);
  }

  /** Taking one URL and then going on as promised keeps the promise. */
  lemma ConsumedFromStep(found: set<string>, items: seq<string>, raises: bool, perDorkLimit: int, count: nat, r: DorkRun)
    requires count < Cap(perDorkLimit) && |items| > 0 && count + 1 < perDorkLimit
    requires ConsumedFrom(AddRoot(found, items[0]), items[1..], raises, perDorkLimit, count + 1, r)
    ensures ConsumedFrom(found, items, raises, perDorkLimit, count, r)
  {
    var n := Min(|items|, Cap(perDorkLimit) - count);
    assert Cap(perDorkLimit) == perDorkLimit && n >= 1;
    assert Min(|items[1..]|, Cap(perDorkLimit) - (count + 1)) == n - 1;
    AddThenRoots(found, items, n);
  }

  /** Taking one URL and then breaking on the limit keeps the promise. */
  lemma ConsumedFromBreak(found: set<string>, items: seq<string>, raises: bool, perDorkLimit: int, count: nat)
    requires count < Cap(perDorkLimit) && |items| > 0 && count + 1 >= perDorkLimit
    ensures ConsumedFrom(found, items, raises, perDorkLimit, count, DorkRun(AddRoot(found, items[0]), count + 1, false))
  {
    assert Cap(perDorkLimit) - count == 1;
    RootsOfPrefix(items, 1);
  }

  /** The `for url in search(...)` loop of one dork, as written, resumed
      after `count` URLs: it stops on the limit with `break`, or when the
      stream ends, or when the stream raises on the next item. */
  function ConsumeStream(found: set<string>, items: seq<string>, raises: bool, perDorkLimit: int, count: nat): (r: DorkRun)
    requires count < Cap(perDorkLimit)
    ensures ConsumedFrom(found, items, raises, perDorkLimit, count, r)
    decreases |items|
  {
    if |items| == 0 then DorkRun(found, count, raises)
    else if count + 1 >= perDorkLimit then
      ConsumedFromBreak(found, items, raises, perDorkLimit, count);
      DorkRun(AddRoot(found, items[0]), count + 1, false)
    else
      var r := ConsumeStream(AddRoot(found, items[0]), items[1..], raises, perDorkLimit, count + 1);
      ConsumedFromStep(found, items, raises, perDorkLimit, count, r);
      r
  }

  /** Reference outcome of one dork, started from the set `before`: the
      first min(|items|, Cap) URLs are consumed and their roots added, and
      the dork fails exactly when the stream raises before the limit is hit. */
  ghost predicate StepOk(before: set<string>, s: SearchStream, perDorkLimit: int, run: DorkRun) {
    var n := Min(|s.items|, Cap(perDorkLimit));
    && run.consumed == n
    && run.failed == (s.raises && |s.items| < Cap(perDorkLimit))
    && run.found == before + Roots(s.items[..n])
  }

  /** One dork, `count` starting at 0 (`try: for url in search(...)`). */
  function RunDork(found: set<string>, s: SearchStream, perDorkLimit: int): (r: DorkRun)
    ensures StepOk(found, s, perDorkLimit, r)
  {
    ConsumeStream(found, s.items, s.raises, perDorkLimit, 0)
  }

  /** The found set before the `i`-th dork of a trace that started from `found`. */
  function Before(found: set<string>, runs: seq<DorkRun>, i: nat): set<string>
    requires i <= |runs|
  {
    if i == 0 then found else runs[i - 1].found
  }

  /** The loop over the dorks. A failed dork `continue`s without the limit
      check; a dork that ended normally stops the loop once the set holds
      at least `totalLimit` roots. */
  function Discover(streams: seq<SearchStream>, found: set<string>, totalLimit: int, perDorkLimit: int): (t: Trace)
    ensures |t.runs| <= |streams|
    ensures |streams| > 0 ==> |t.runs| > 0
    ensures found <= t.found
    decreases |streams|
  {
    if |streams| == 0 then Trace(found, [])
    else
      var run := RunDork(found, streams[0], perDorkLimit);
      if !run.failed && |run.found| >= totalLimit then Trace(run.found, [run])
      else
        var rest := Discover(streams[1..], run.found, totalLimit, perDorkLimit);
        Trace(rest.found, [run] + rest.runs)
  }

  /** The `i`-th run is the `i`-th dork started from the set the previous runs left. */
  ghost predicate RunAt(streams: seq<SearchStream>, found: set<string>, perDorkLimit: int, runs: seq<DorkRun>, i: nat)
    requires i < |runs| <= |streams|
  {
    runs[i] == RunDork(Before(found, runs, i), streams[i], perDorkLimit)
  }

  /** Every opened dork ran from the set the previous ones left. */
  ghost predicate RunsFollow(streams: seq<SearchStream>, found: set<string>, perDorkLimit: int, runs: seq<DorkRun>) {
    |runs| <= |streams| && forall i :: 0 <= i < |runs| ==> RunAt(streams, found, perDorkLimit, runs, i)
  }

  /** The loop went on past each opened dork but the last only because that
      dork failed or left fewer than `totalLimit` roots. */
  ghost predicate GoesOn(runs: seq<DorkRun>, totalLimit: int) {
    forall i :: 0 <= i < |runs| - 1 ==> runs[i].failed || |runs[i].found| < totalLimit
  }

  /** Dorks are left unopened only after one that finished normally with at
      least `totalLimit` roots. */
  ghost predicate StopsOnlyAtLimit(streams: seq<SearchStream>, runs: seq<DorkRun>, totalLimit: int) {
    |runs| < |streams| ==> |runs| > 0 && !runs[|runs| - 1].failed && |runs[|runs| - 1].found| >= totalLimit
  }

  /** Reference description of a discovery over `streams` started from
      `found`: each opened dork is one `RunDork` (described by `StepOk`) from
      the set left by the previous one; every dork but the last opened one
      either failed or left fewer than `totalLimit` roots; the loop ends
      early only after a dork that finished normally with at least
      `totalLimit` roots; the final set is the one left by the last dork. */
  ghost predicate IsTrace(streams: seq<SearchStream>, found: set<string>, totalLimit: int, perDorkLimit: int, t: Trace) {
    && RunsFollow(streams, found, perDorkLimit, t.runs)
    && GoesOn(t.runs, totalLimit)
    && StopsOnlyAtLimit(streams, t.runs, totalLimit)
    && t.found == Before(found, t.runs, |t.runs|)
  }

  lemma RunsFollowCons(streams: seq<SearchStream>, found: set<string>, perDorkLimit: int, run: DorkRun, rest: seq<DorkRun>)
    requires |streams| > 0
    requires run == RunDork(found, streams[0], perDorkLimit)
    requires RunsFollow(streams[1..], run.found, perDorkLimit, rest)
    ensures RunsFollow(streams, found, perDorkLimit, [run] + rest)
  {
    var runs := [run] + rest;
    forall i | 0 <= i < |runs|
      ensures RunAt(streams, found, perDorkLimit, runs, i)
    {
      if i > 0 {
        assert RunAt(streams[1..], run.found, perDorkLimit, rest, i - 1);
        assert runs[i] == rest[i - 1];
        assert Before(found, runs, i) == Before(run.found, rest, i - 1);
        assert streams[i] == streams[1..][i - 1];
      }
    }
  }

  lemma RunsFollowTail(streams: seq<SearchStream>, found: set<string>, perDorkLimit: int, runs: seq<DorkRun>)
    requires |runs| > 0
    requires RunsFollow(streams, found, perDorkLimit, runs)
    ensures RunsFollow(streams[1..], runs[0].found, perDorkLimit, runs[1..])
  {
    var rest := runs[1..];
    forall i | 0 <= i < |rest|
      ensures RunAt(streams[1..], runs[0].found, perDorkLimit, rest, i)
    {
      assert RunAt(streams, found, perDorkLimit, runs, i + 1);
      assert Before(runs[0].found, rest, i) == Before(found, runs, i + 1);
    }
  }

  lemma GoesOnCons(run: DorkRun, rest: seq<DorkRun>, totalLimit: int)
    requires run.failed || |run.found| < totalLimit
    requires GoesOn(rest, totalLimit)
    ensures GoesOn([run] + rest, totalLimit)
  {
    var runs := [run] + rest;
    forall i | 0 < i < |runs| - 1
      ensures runs[i].failed || |runs[i].found| < totalLimit
    {
      assert runs[i] == rest[i - 1];
    }
  }

  lemma GoesOnTail(runs: seq<DorkRun>, totalLimit: int)
    requires |runs| > 0 && GoesOn(runs, totalLimit)
    ensures GoesOn(runs[1..], totalLimit)
  {
    forall i | 0 <= i < |runs| - 2
      ensures runs[1..][i].failed || |runs[1..][i].found| < totalLimit
    {
      assert runs[1..][i] == runs[i + 1];
    }
  }

  /** A dork that went on, followed by a trace of the remaining dorks, is a trace. */
  lemma {:induction false} TraceCons(streams: seq<SearchStream>, found: set<string>, totalLimit: int, perDorkLimit: int, run: DorkRun, rest: Trace)
    requires |streams| > 0
    requires run == RunDork(found, streams[0], perDorkLimit)
    requires run.failed || |run.found| < totalLimit
    requires IsTrace(streams[1..], run.found, totalLimit, perDorkLimit, rest)
    ensures IsTrace(streams, found, totalLimit, perDorkLimit, Trace(rest.found, [run] + rest.runs))
  {
    var runs := [run] + rest.runs;
    RunsFollowCons(streams, found, perDorkLimit, run, rest.runs);
    GoesOnCons(run, rest.runs, totalLimit);
    if |rest.runs| > 0 {
      assert runs[|runs| - 1] == rest.runs[|rest.runs| - 1];
    }
    assert rest.found == Before(found, runs, |runs|);
  }

  /** The loop meets the reference description. */
  lemma {:induction false} DiscoverIsTrace(streams: seq<SearchStream>, found: set<string>, totalLimit: int, perDorkLimit: int)
    ensures IsTrace(streams, found, totalLimit, perDorkLimit, Discover(streams, found, totalLimit, perDorkLimit))
    decreases |streams|
  {
    if |streams| > 0 {
      var run := RunDork(found, streams[0], perDorkLimit);
      if run.failed || |run.found| < totalLimit {
        var rest := Discover(streams[1..], run.found, totalLimit, perDorkLimit);
        DiscoverIsTrace(streams[1..], run.found, totalLimit, perDorkLimit);
        TraceCons(streams, found, totalLimit, perDorkLimit, run, rest);
      } else {
        assert Discover(streams, found, totalLimit, perDorkLimit) == Trace(run.found, [run]);
        assert RunAt(streams, found, perDorkLimit, [run], 0);
      }
    }
  }

  /** Dropping the first run of a trace that went on past its first dork
      leaves a trace of the remaining dorks. */
  lemma TraceTail(streams: seq<SearchStream>, found: set<string>, totalLimit: int, perDorkLimit: int, t: Trace)
    requires IsTrace(streams, found, totalLimit, perDorkLimit, t)
    requires |streams| > 0 && |t.runs| > 0
    requires t.runs[0].failed || |t.runs[0].found| < totalLimit
    ensures IsTrace(streams[1..], t.runs[0].found, totalLimit, perDorkLimit, Trace(t.found, t.runs[1..]))
  {
    var rest := t.runs[1..];
    RunsFollowTail(streams, found, perDorkLimit, t.runs);
    GoesOnTail(t.runs, totalLimit);
    if |rest| > 0 {
      assert rest[|rest| - 1] == t.runs[|t.runs| - 1];
    }
    assert t.found == Before(t.runs[0].found, rest, |rest|);
  }

  /** A trace over at least one dork opens the first dork, from `found`. */
  lemma TraceHead(streams: seq<SearchStream>, found: set<string>, totalLimit: int, perDorkLimit: int, t: Trace)
    requires IsTrace(streams, found, totalLimit, perDorkLimit, t)
    requires |streams| > 0
    ensures |t.runs| > 0 && t.runs[0] == RunDork(found, streams[0], perDorkLimit)
    ensures !t.runs[0].failed && |t.runs[0].found| >= totalLimit ==> t == Trace(t.runs[0].found, [t.runs[0]])
  {
    assert RunAt(streams, found, perDorkLimit, t.runs, 0);
    if !t.runs[0].failed && |t.runs[0].found| >= totalLimit {
      assert |t.runs| == 1;
      assert t.runs == [t.runs[0]];
    }
  }

  /** The reference description determines the discovery: any trace that
      meets it is the one the loop computes. */
  lemma {:induction false} TraceIsDiscover(streams: seq<SearchStream>, found: set<string>, totalLimit: int, perDorkLimit: int, t: Trace)
    requires IsTrace(streams, found, totalLimit, perDorkLimit, t)
    ensures t == Discover(streams, found, totalLimit, perDorkLimit)
    decreases |streams|
  {
    if |streams| > 0 {
      TraceHead(streams, found, totalLimit, perDorkLimit, t);
      var run := t.runs[0];
      if run.failed || |run.found| < totalLimit {
        TraceTail(streams, found, totalLimit, perDorkLimit, t);
        var tail := Trace(t.found, t.runs[1..]);
        TraceIsDiscover(streams[1..], run.found, totalLimit, perDorkLimit, tail);
        assert Discover(streams, found, totalLimit, perDorkLimit) == Trace(tail.found, [run] + tail.runs);
        assert t.runs == [run] + tail.runs;
      } else {
        assert Discover(streams, found, totalLimit, perDorkLimit) == Trace(run.found, [run]);
      }
    } else {
      assert t.runs == [];
    }
  }

  /** The sets a trace passes through, given what each run added. */
  ghost predicate Accumulates(found: set<string>, runs: seq<DorkRun>, added: seq<set<string>>) {
    && |added| == |runs|
    && forall i {:trigger added[i]} :: 0 <= i < |runs| ==> runs[i].found == Before(found, runs, i) + added[i]
  }

  lemma {:induction false} AccumulatesMembers(found: set<string>, runs: seq<DorkRun>, added: seq<set<string>>, j: nat, x: string)
    requires Accumulates(found, runs, added) && j <= |runs|
    ensures x in Before(found, runs, j) <==> x in found || exists i :: 0 <= i < j && x in added[i]
    decreases j
  {
    if j > 0 {
      AccumulatesMembers(found, runs, added, j - 1, x);
      assert runs[j - 1].found == Before(found, runs, j - 1) + added[j - 1];
    }
  }

  lemma {:induction false} AccumulatesGrows(found: set<string>, runs: seq<DorkRun>, added: seq<set<string>>, i: nat, j: nat)
    requires Accumulates(found, runs, added) && i <= j <= |runs|
    ensures Before(found, runs, i) <= Before(found, runs, j)
    decreases j - i
  {
    if i < j {
      AccumulatesGrows(found, runs, added, i, j - 1);
      assert runs[j - 1].found == Before(found, runs, j - 1) + added[j - 1];
    }
  }

  /** Each run's set contains the one before it and is contained in the final one. */
  lemma AccumulatesBetween(found: set<string>, runs: seq<DorkRun>, added: seq<set<string>>, i: nat)
    requires Accumulates(found, runs, added) && i < |runs|
    ensures Before(found, runs, i) <= runs[i].found <= Before(found, runs, |runs|)
    ensures |Before(found, runs, i)| <= |runs[i].found| <= |Before(found, runs, |runs|)|
  {
    AccumulatesGrows(found, runs, added, i, i + 1);
    AccumulatesGrows(found, runs, added, i + 1, |runs|);
    assert Before(found, runs, i + 1) == runs[i].found;
    SubsetSize(Before(found, runs, i), runs[i].found);
    SubsetSize(runs[i].found, Before(found, runs, |runs|));
  }

  lemma {:induction false} AccumulatesSize(found: set<string>, runs: seq<DorkRun>, added: seq<set<string>>, bound: nat, j: nat)
    requires Accumulates(found, runs, added) && j <= |runs|
    requires forall i :: 0 <= i < |added| ==> |added[i]| <= bound
    ensures |Before(found, runs, j)| <= |found| + j * bound
    decreases j
  {
    if j > 0 {
      AccumulatesSize(found, runs, added, bound, j - 1);
      assert runs[j - 1].found == Before(found, runs, j - 1) + added[j - 1];
      assert j * bound == (j - 1) * bound + bound;
    }
  }

  /** What each run of a trace consumed and added. */
  lemma RunsFollowAdded(streams: seq<SearchStream>, found: set<string>, perDorkLimit: int, runs: seq<DorkRun>)
    requires RunsFollow(streams, found, perDorkLimit, runs)
    ensures forall i {:trigger streams[i]} :: 0 <= i < |runs| ==>
      && runs[i].consumed <= |streams[i].items|
      && runs[i].consumed <= Cap(perDorkLimit)
      && runs[i].found == Before(found, runs, i) + Roots(streams[i].items[..runs[i].consumed])
  {
    forall i | 0 <= i < |runs|
      ensures runs[i].consumed <= |streams[i].items|
      ensures runs[i].consumed <= Cap(perDorkLimit)
      ensures runs[i].found == Before(found, runs, i) + Roots(streams[i].items[..runs[i].consumed])
    {
      assert RunAt(streams, found, perDorkLimit, runs, i);
    }
  }

  /** The roots each run of a discovery added: those of the URLs it consumed. */
  ghost function AddedRoots(streams: seq<SearchStream>, found: set<string>, totalLimit: int, perDorkLimit: int): (added: seq<set<string>>)
    ensures var t := Discover(streams, found, totalLimit, perDorkLimit);
      && Accumulates(found, t.runs, added)
      && t.found == Before(found, t.runs, |t.runs|)
      && forall i :: 0 <= i < |added| ==>
           && t.runs[i].consumed <= |streams[i].items|
           && t.runs[i].consumed <= Cap(perDorkLimit)
           && added[i] == Roots(streams[i].items[..t.runs[i].consumed])
  {
    DiscoverIsTrace(streams, found, totalLimit, perDorkLimit);
    var t := Discover(streams, found, totalLimit, perDorkLimit);
    RunsFollowAdded(streams, found, perDorkLimit, t.runs);
    seq(|t.runs|, i requires 0 <= i < |t.runs| => Roots(streams[i].items[..t.runs[i].consumed]))
  }

  /** The found set never shrinks: each dork adds to the set the previous
      one left, and the final set contains every intermediate one. */
  lemma {:induction false} FoundGrows(streams: seq<SearchStream>, found: set<string>, totalLimit: int, perDorkLimit: int)
    ensures var t := Discover(streams, found, totalLimit, perDorkLimit);
      forall i :: 0 <= i < |t.runs| ==>
        && Before(found, t.runs, i) <= t.runs[i].found <= t.found
        && |Before(found, t.runs, i)| <= |t.runs[i].found| <= |t.found|
  {
    var t := Discover(streams, found, totalLimit, perDorkLimit);
    var added := AddedRoots(streams, found, totalLimit, perDorkLimit);
    forall i | 0 <= i < |t.runs|
      ensures Before(found, t.runs, i) <= t.runs[i].found <= t.found
      ensures |Before(found, t.runs, i)| <= |t.runs[i].found| <= |t.found|
    {
      AccumulatesBetween(found, t.runs, added, i);
    }
  }

  lemma SubsetSize(a: set<string>, b: set<string>)
    requires a <= b
    ensures |a| <= |b|
  {
    assert b == a + (b - a);
  }

  /** Every root in the final set was already there or is the match of a URL
      some opened dork consumed, and every consumed URL with a match has its
      root in the final set. */
  lemma FoundIsConsumedRoots(streams: seq<SearchStream>, found: set<string>, totalLimit: int, perDorkLimit: int, x: string)
    ensures var t := Discover(streams, found, totalLimit, perDorkLimit);
      x in t.found <==>
        || x in found
        || exists i, k :: 0 <= i < |t.runs| && i < |streams| && 0 <= k < t.runs[i].consumed && k < |streams[i].items|
                          && MatchRoot(streams[i].items[k]) == Some(x)
  {
    var t := Discover(streams, found, totalLimit, perDorkLimit);
    var added := AddedRoots(streams, found, totalLimit, perDorkLimit);
    AccumulatesMembers(found, t.runs, added, |t.runs|, x);
    forall i | 0 <= i < |t.runs|
      ensures x in added[i] <==> exists k :: 0 <= k < t.runs[i].consumed && k < |streams[i].items|
                                              && MatchRoot(streams[i].items[k]) == Some(x)
    {
      RootsOfTake(streams[i].items, t.runs[i].consumed, x);
    }
  }

  /** No dork's stream is read past the per-dork limit (past one URL when
      the limit is below 1), and a stream with enough URLs is read exactly
      that far; URLs without a root count like the others. */
  lemma {:induction false} PerDorkLimit(streams: seq<SearchStream>, found: set<string>, totalLimit: int, perDorkLimit: int)
    ensures var t := Discover(streams, found, totalLimit, perDorkLimit);
      forall i :: 0 <= i < |t.runs| ==>
        && t.runs[i].consumed <= |streams[i].items|
        && t.runs[i].consumed <= Cap(perDorkLimit)
        && (perDorkLimit >= 1 ==> t.runs[i].consumed <= perDorkLimit)
        && (|streams[i].items| >= Cap(perDorkLimit) ==> t.runs[i].consumed == Cap(perDorkLimit))
  {
    DiscoverIsTrace(streams, found, totalLimit, perDorkLimit);
    var t := Discover(streams, found, totalLimit, perDorkLimit);
    forall i | 0 <= i < |t.runs|
      ensures t.runs[i].consumed == Min(|streams[i].items|, Cap(perDorkLimit))
    {
      assert RunAt(streams, found, perDorkLimit, t.runs, i);
    }
  }

  /** The loop goes on past every opened dork except the last one only
      because that dork failed or left fewer than `totalLimit` roots, and it
      leaves dorks unopened only after a dork that finished normally with at
      least `totalLimit` roots. */
  lemma {:induction false} EarlyStop(streams: seq<SearchStream>, found: set<string>, totalLimit: int, perDorkLimit: int)
    ensures var t := Discover(streams, found, totalLimit, perDorkLimit);
      && (forall i :: 0 <= i < |t.runs| - 1 ==> t.runs[i].failed || |t.runs[i].found| < totalLimit)
      && (|t.runs| < |streams| ==> !t.runs[|t.runs| - 1].failed && |t.found| >= totalLimit)
  {
    DiscoverIsTrace(streams, found, totalLimit, perDorkLimit);
  }

  /** Once a dork finishes normally with at least `totalLimit` roots, no
      later dork is opened. */
  lemma StopsAtLimit(streams: seq<SearchStream>, found: set<string>, totalLimit: int, perDorkLimit: int, i: nat)
    requires i < |Discover(streams, found, totalLimit, perDorkLimit).runs|
    requires !Discover(streams, found, totalLimit, perDorkLimit).runs[i].failed
    requires |Discover(streams, found, totalLimit, perDorkLimit).runs[i].found| >= totalLimit
    ensures |Discover(streams, found, totalLimit, perDorkLimit).runs| == i + 1
    ensures Discover(streams, found, totalLimit, perDorkLimit).found == Discover(streams, found, totalLimit, perDorkLimit).runs[i].found
  {
    DiscoverIsTrace(streams, found, totalLimit, perDorkLimit);
  }

  /** A dork whose stream raises keeps every root it added before the
      exception, skips the total-limit check, and the next dork is opened. */
  lemma FailedDorkContinues(streams: seq<SearchStream>, found: set<string>, totalLimit: int, perDorkLimit: int, i: nat)
    requires i < |Discover(streams, found, totalLimit, perDorkLimit).runs|
    requires Discover(streams, found, totalLimit, perDorkLimit).runs[i].failed
    ensures var t := Discover(streams, found, totalLimit, perDorkLimit);
      && streams[i].raises
      && t.runs[i].consumed == |streams[i].items| < Cap(perDorkLimit)
      && t.runs[i].found == Before(found, t.runs, i) + Roots(streams[i].items)
      && (i + 1 < |streams| ==> i + 1 < |t.runs|)
  {
    DiscoverIsTrace(streams, found, totalLimit, perDorkLimit);
    var t := Discover(streams, found, totalLimit, perDorkLimit);
    var items := streams[i].items;
    assert RunAt(streams, found, perDorkLimit, t.runs, i);
    assert t.runs[i].consumed == |items|;
    assert items[..|items|] == items;
  }

  /** Each opened dork adds at most `Cap(perDorkLimit)` roots. */
  lemma {:induction false} FoundBound(streams: seq<SearchStream>, found: set<string>, totalLimit: int, perDorkLimit: int)
    ensures |Discover(streams, found, totalLimit, perDorkLimit).found| <= |found| + |streams| * Cap(perDorkLimit)
  {
    var t := Discover(streams, found, totalLimit, perDorkLimit);
    var added := AddedRoots(streams, found, totalLimit, perDorkLimit);
    forall i | 0 <= i < |added|
      ensures |added[i]| <= Cap(perDorkLimit)
    {
      RootsSize(streams[i].items[..t.runs[i].consumed]);
    }
    AccumulatesSize(found, t.runs, added, Cap(perDorkLimit), |t.runs|);
    MulMonotone(|t.runs|, |streams|, Cap(perDorkLimit));
  }

  lemma MulMonotone(a: nat, b: nat, c: nat)
    requires a <= b
    ensures a * c <= b * c
  {
    assert b * c == a * c + (b - a) * c;
  }
}
