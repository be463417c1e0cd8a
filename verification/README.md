# WPscraper target discovery and report, in Dafny

This project models the core of `WPscraper.py`. The script looks for WordPress
sites under a domain suffix (for example `or.id`) and writes their page text
to a file. It has four parts:

- **Dorks.** `get_wp_targets` builds five search queries, called dorks. Each
  is a WordPress fingerprint followed by ` site:<domain>`.
- **Dork loop.** For each dork it reads the result stream of the search
  service, up to `per_dork_limit` URLs.
- **Root extraction.** From every URL it takes the root with
  `re.match(r"https?://[^/]+", url)` and adds it to a set. The root is the
  scheme followed by everything up to the first '/' after it. That is
  usually the host, but it keeps any userinfo, port, query or fragment that
  comes before a '/': `https://a.test?q=1` is its own root, and
  `http://https://x` has the root `http://https:`.
- **Result and report.** It returns `list(found_urls)[:total_limit]`. `main`
  then writes one record per target whose page text is non-empty:
  `--- URL: <url>\n<text>\n\n` followed by eighty `=` and `\n\n`.

The modules follow the program's structure:

| module | file | models |
|---|---|---|
| `Strings` | `strings.dfy` | prefixes, suffixes, repetition, distinctness |
| `Wrappers` | `wrappers.dfy` | `Option` |
| `RootDomain` | `root_domain.dfy` | the regex match and its reference semantics |
| `DorkQueries` | `dork_queries.dfy` | the dork list and its inverse |
| `Discovery` | `discovery.dfy` | the per-dork stream loop and the loop over the dorks |
| `Targets` | `targets.dfy` | `get_wp_targets` end to end |
| `Report` | `report.dfy` | the output records of `main` |

The search service is a parameter `search: (string, int) -> SearchStream`. A
`SearchStream` is the finite list of URLs the generator yields, plus whether
it raises when asked for the next one. The page fetch is a parameter
`fetch: string -> string`.

Several behaviours of the code are modelled exactly as written:

- **Per-dork cap.** `count >= per_dork_limit` is checked after each URL, so
  each dork reads at most `Cap(p) = max(p, 1)` URLs.
- **What counts.** URLs without a root count toward that cap.
- **Failing dorks.** A dork whose stream raises keeps what it already added.
  It then `continue`s, which skips the `total_limit` check.
- **Total limit.** The limit is checked only after a dork that finished
  normally, so the set may grow past it. The final slice cuts it back.
- **Negative limits.** A negative `total_limit` has Python's slice meaning:
  it drops elements from the end.
- **Set order.** The order of `list(set)` is left open: the method picks
  elements arbitrarily.

## Model

| member | source | states |
|---|---|---|
| DorkQueries.Dorks | WPscraper.py:80-86 | exactly five queries, in the source order; query i is fingerprint i, then ` site:`, then the domain suffix |
| DorkQueries.DorksRoundTrip | WPscraper.py:80-86 | every generated query can be parsed back into its position and the domain suffix, so no information is lost |
| DorkQueries.DorksDistinct | WPscraper.py:80-86 | the five queries of a run are pairwise different, so no dork is searched twice |
| DorkQueries.DorksInjective | WPscraper.py:80-86 | two different domain suffixes, or two positions, never produce the same query |
| RootDomain.HostRun | WPscraper.py:96 | greedy `[^/]+`: the run contains no '/' and is followed by the end of the string or by '/' |
| RootDomain.MatchRoot | WPscraper.py:96-98 | there is a root exactly when the URL starts with `https://` or `http://` followed by a character other than '/'; a root is a prefix of the URL made of the scheme and a '/'-free run |
| RootDomain.MatchRootIsRegexMatch | WPscraper.py:96-98 | the extractor returns m exactly when m is the regex's `group(0)`: anchored at the start, `http` or `https` followed by a non-empty run with no '/', which cannot be extended |
| RootDomain.MatchRootIdempotent | WPscraper.py:96-98 | extracting again from a root gives the same root |
| RootDomain.NoSchemeNoRoot | WPscraper.py:96-97 | a URL that does not start with lower-case `http://` or `https://` is skipped |
| Discovery.AddRoot | WPscraper.py:96-99 | adding one URL grows the set by at most one element, which must be that URL's root; the set is unchanged exactly when there is no root or the root is already present |
| Discovery.ConsumeStream | WPscraper.py:94-102 | the loop that resumes after `count` URLs reads min(remaining, cap - count) more URLs, adds exactly their roots, and fails exactly when the stream raises before the cap is reached |
| Discovery.RunDork | WPscraper.py:91-107 | one dork reads as many URLs as its stream has, up to max(p, 1), and adds exactly their roots; it fails exactly when the stream raises with fewer items than the cap |
| Discovery.Discover | WPscraper.py:88-111 | no more dorks are opened than there are, at least one is opened if any exist, and the initial set is kept |
| Discovery.DiscoverIsTrace | WPscraper.py:88-111 | the loop matches the reference description: each opened dork runs from the set the previous one left; every dork before the last opened one either failed or left fewer roots than the limit; dorks are left unopened only after one finished normally at the limit |
| Discovery.TraceIsDiscover | WPscraper.py:88-111 | the reference description determines the outcome: any trace meeting it is the loop's result |
| Discovery.FoundGrows | WPscraper.py:88-99 | the found set never shrinks from one dork to the next, and the final set contains every intermediate one |
| Discovery.FoundIsConsumedRoots | WPscraper.py:94-99 | a root is in the final set exactly when it was there at the start or is the match of a URL that some opened dork read within its cap |
| Discovery.PerDorkLimit | WPscraper.py:91-102 | no stream is read past `per_dork_limit` (past one URL when the limit is below 1); a stream with enough URLs is read exactly to the cap; URLs without a root count too |
| Discovery.EarlyStop | WPscraper.py:104-111 | the loop passes a dork only if it failed or left fewer roots than the limit; it stops early only after a dork that finished normally with at least `total_limit` roots |
| Discovery.StopsAtLimit | WPscraper.py:109-111 | once a dork finishes normally with at least `total_limit` roots, no later dork is opened and its set is the final one |
| Discovery.FailedDorkContinues | WPscraper.py:104-107 | a failed dork's stream raised before the cap; all of its URLs were read and their roots kept; the next dork is still opened |
| Discovery.FoundBound | WPscraper.py:91-102 | the loop adds at most max(per_dork_limit, 1) roots per dork |
| Discovery.RootsMembers | WPscraper.py:94-99 | a root comes from a list of URLs exactly when some URL in it matches to that root |
| Discovery.RootsSize | WPscraper.py:94-99 | a list of URLs has at most as many roots as it has URLs |
| Targets.ListOfSet | WPscraper.py:117 | `list(found_urls)` has every element of the set exactly once and nothing else |
| Targets.TruncateFound | WPscraper.py:117 | `[:total_limit]` of that list: no duplicates, only found roots, and the slice's length (min(limit, size), or size + limit clamped at 0 for a negative limit); all roots are kept when the limit allows |
| Targets.FoundFromDorks | WPscraper.py:80-99 | every collected root is the match of a URL that the loop read from the stream of one of the five dorks it opened, within the per-dork cap |
| Targets.FoundRootsBound | WPscraper.py:80-102 | at most five times max(per_dork_limit, 1) roots are collected |
| Targets.GetWpTargets | WPscraper.py:71-119 | the returned list has no duplicates and the length of the slice; each target was collected and is the root of some URL the loop read from the stream of a dork it opened, within the per-dork cap; the list is at most 5 times the per-dork cap |
| Report.FormatRecord | WPscraper.py:190-196 | empty page text writes nothing; otherwise the record starts with the `--- URL: ` header line and ends with the blank-line-wrapped 80-character separator; the page text lies between them |
| Report.RecordRoundTrip | WPscraper.py:190-194 | a record determines the page text it was written from |
| Report.Separator | WPscraper.py:194 | the separator is exactly 80 `=` characters |
| Report.WithText | WPscraper.py:189-190 | a target gets a record exactly when its page text is non-empty |
| Report.RecordsAppend | WPscraper.py:187-196 | the output is appended target by target, so two batches of targets give the concatenation of their outputs |
| Report.RecordsSkipEmpty | WPscraper.py:189-196 | targets without page text leave no trace: the output equals that of the targets with text alone |
| Report.RecordsEmpty | WPscraper.py:187-196 | the output is empty exactly when no target yields page text |
| Report.WriteRecords | WPscraper.py:187-199 | the file receives, in target order, exactly the records of the targets whose page text is non-empty |
| Report.WriteReport | WPscraper.py:174-200 | with no targets the program stops before the output file is opened; otherwise the truncated file holds exactly the records of the targets with text, in order |

## Left out

- `fetch_and_extract_text` needs an HTTP request, a timeout and HTML parsing. It becomes the `fetch` parameter; an empty string stands for every failure it reports.
- `googlesearch.search` is a network service. It becomes the `search` parameter; what it does with `num_results` is left to that parameter.
- An exception raised by the `search(...)` call itself is modelled as a stream that yields no URLs and raises, which the source handles in the same way.
- `time.sleep(delay_between)` is not modelled. The model assumes `delay_between` is a non-negative number small enough for `time.sleep`, which is when the sleep only paces the requests. `--delay` is parsed as any float (WPscraper.py:147-151). For a negative or NaN delay, `time.sleep` raises `ValueError`:
  - at WPscraper.py:103, inside the `try`, this ends a dork as failed right after its first URL whenever `count < per_dork_limit`;
  - at WPscraper.py:114 it propagates out of `get_wp_targets`;
  - at WPscraper.py:198 it aborts `main` after the first target.
- Discovery.PerDorkLimit: holds only for a valid delay. With an invalid one, a dork with more than one URL and `per_dork_limit > 1` stops after its first URL.
- Discovery.FailedDorkContinues: holds only for a valid delay. With an invalid one, a dork also fails because of the sleep at WPscraper.py:103, and the sleep at WPscraper.py:114 ends the whole loop with an exception.
- Report.WriteReport: holds only for a valid delay. With an invalid one, `main` stops after writing the first target's record.
- `timeout_fetch` bounds each page request. It is part of the `fetch` parameter.
- Logging, `argparse` defaults, exit codes and the failure to open the output file are process and I/O effects. Only the file contents are modelled.
- The iteration order of `list(set)` is unspecified in Python. The model leaves it open and states only order-independent facts about the result.
- A `KeyboardInterrupt` is not caught by `except Exception`. Interrupts are not modelled.
- Characters are abstract: there is no Unicode normalisation or encoding in the model. The regex is case-sensitive in the source as well.
