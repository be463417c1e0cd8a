/** The root-domain extraction of `get_wp_targets`: Python's
    `re.match(r"https?://[^/]+", url)` followed by `group(0)`.
    `re.match` anchors the pattern at the start of the string (not at the
    end), the comparison is case-sensitive, `s?` prefers taking the `s`, and
    `[^/]+` is greedy, so the match is the scheme followed by the longest
    non-empty run of characters other than '/'. */
module RootDomain {
  import opened Wrappers
  import opened Strings

  const Http: string := "http://"
  const Https: string := "https://"

  /** A non-empty run of characters none of which is '/': what `[^/]+` accepts.
      Usually a host name, but it may also hold userinfo, a port, a query or a
      fragment, whatever comes before the first '/'. */
  predicate IsHost(h: string) {
    |h| > 0 && forall k :: 0 <= k < |h| ==> h[k] != '/'
  }

  /** Reference semantics of the regex match: `m` is what `re.match` returns
      as `group(0)` on `url`. It is anchored at the start of `url`, made of a
      scheme and a host, and cannot be extended (greedy `[^/]+`). */
  predicate IsRootMatch(url: string, m: string) {
    && StartsWith(url, m)
    && ((StartsWith(m, Https) && IsHost(m[|Https|..]))
        || (StartsWith(m, Http) && IsHost(m[|Http|..])))
    && (|m| == |url| || url[|m|] == '/')
  }

  /** Length of the longest prefix of `s` free of '/'. */
  function HostRun(s: string): (n: nat)
    ensures n <= |s|
    ensures forall k :: 0 <= k < n ==> s[k] != '/'
    ensures n < |s| ==> s[n] == '/'
  {
    if |s| == 0 || s[0] == '/' then 0 else 1 + HostRun(s[1..])
  }

  /** Length of the scheme `https?://` at the start of `url`, or 0 if there is none. */
  function SchemeLength(url: string): (n: nat)
    ensures n == 0 || n == |Http| || n == |Https|
    ensures n == |Https| <==> StartsWith(url, Https)
    ensures n == |Http| <==> StartsWith(url, Http) && !StartsWith(url, Https)
  {
    if StartsWith(url, Https) then |Https|
    else if StartsWith(url, Http) then |Http|
    else 0
  }

  /** `re.match(r"https?://[^/]+", url)`: the scheme and everything after it up
      to the first '/', or None. */
  function MatchRoot(url: string): (r: Option<string>)
    ensures r.Some? ==> IsRootMatch(url, r.value)
    ensures r.Some? ==> StartsWith(url, r.value) && IsHost(r.value[SchemeLength(url)..])
    ensures r.Some? <==> SchemeLength(url) > 0 && |url| > SchemeLength(url) && url[SchemeLength(url)] != '/'
  {
    var n := SchemeLength(url);
    if n == 0 then None
    else
      var h := HostRun(url[n..]);
      if h == 0 then None else Some(url[..n + h])
  }

  /** A run free of '/' that ends at the end of `s` or at a '/' is the one `HostRun` finds. */
  lemma HostRunUnique(s: string, k: nat)
    requires k <= |s|
    requires forall j :: 0 <= j < k ==> s[j] != '/'
    requires k == |s| || s[k] == '/'
    ensures HostRun(s) == k
  {
  }

  /** An `https://` URL has no match of the shape `http` + host: the would-be
      host begins with the "s://" of the scheme and so contains a '/'. */
  lemma HttpsHasNoHttpHost(url: string, m: string)
    requires StartsWith(url, Https) && StartsWith(url, m) && |m| > |Http|
    ensures !IsHost(m[|Http|..])
  {
    assert m[|Http|..][0] == m[|Http|] == url[|Http|] == Https[|Http|];
  }

  /** A regex match starts with the scheme `SchemeLength` finds, followed by a host. */
  lemma RootMatchScheme(url: string, m: string)
    requires IsRootMatch(url, m)
    ensures 0 < SchemeLength(url) < |m|
    ensures m[..SchemeLength(url)] == url[..SchemeLength(url)]
    ensures IsHost(m[SchemeLength(url)..])
  {
    assert url[..|m|] == m;
    if StartsWith(m, Https) && IsHost(m[|Https|..]) {
      assert url[..|Https|] == m[..|Https|];
      assert SchemeLength(url) == |Https|;
    } else {
      assert url[..|Http|] == m[..|Http|];
      if StartsWith(url, Https) {
        HttpsHasNoHttpHost(url, m);
      }
      assert SchemeLength(url) == |Http|;
    }
  }

  /** The extractor agrees with the regex semantics in both directions:
      it returns `m` exactly when `m` is the match. */
  lemma MatchRootIsRegexMatch(url: string, m: string)
    ensures MatchRoot(url) == Some(m) <==> IsRootMatch(url, m)
  {
    if IsRootMatch(url, m) {
      RootMatchScheme(url, m);
      var n := SchemeLength(url);
      var rest := url[n..];
      forall j | 0 <= j < |m| - n
        ensures rest[j] != '/'
      {
        assert rest[j] == url[n + j] == m[n + j] == m[n..][j];
      }
      assert |m| - n == |rest| || rest[|m| - n] == '/';
      HostRunUnique(rest, |m| - n);
      assert url[..|m|] == m;
    }
  }

  /** Extracting again from an extracted root gives the root back. */
  lemma MatchRootIdempotent(url: string)
    requires MatchRoot(url).Some?
    ensures MatchRoot(MatchRoot(url).value) == MatchRoot(url)
  {
    var m := MatchRoot(url).value;
    var n := SchemeLength(url);
    assert m[..n] == url[..n];
    assert SchemeLength(m) == n;
    HostRunUnique(m[n..], |m| - n);
    assert m[..|m|] == m;
  }

  /** A URL that does not begin with a lower-case `http://` or `https://`
      has no root, whatever follows. */
  lemma NoSchemeNoRoot(url: string)
    requires !StartsWith(url, Http) && !StartsWith(url, Https)
    ensures MatchRoot(url) == None
    ensures forall m :: !IsRootMatch(url, m)
  {
    forall m ensures !IsRootMatch(url, m) {
      MatchRootIsRegexMatch(url, m);
    }
  }
}
