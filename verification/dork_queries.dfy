/** The five WordPress search queries ("dorks") of `get_wp_targets`, each a
    fixed fingerprint followed by a site restriction on the domain suffix. */
module DorkQueries {
  import opened Wrappers
  import opened Strings

  /** The site restriction between a fingerprint and the domain suffix. */
  const SiteOperator: string := " site:"

  /** The fingerprints, in the order the queries are issued. */
  const Fingerprints: seq<string> := [
    "inurl:wp-content",
    "inurl:\"/wp-content/themes/\"",
    "inurl:readme.html",
    "\"Powered by WordPress\"",
    "intitle:\"Just another WordPress site\""
  ]

  /** The dork list built from `siteDomain`. */
  function Dorks(siteDomain: string): (qs: seq<string>)
    ensures |qs| == |Fingerprints| == 5
    ensures forall i :: 0 <= i < |qs| ==>
      && StartsWith(qs[i], Fingerprints[i] + SiteOperator)
      && EndsWith(qs[i], SiteOperator + siteDomain)
      && |qs[i]| == |Fingerprints[i]| + |SiteOperator| + |siteDomain|
  {
    seq(|Fingerprints|, i requires 0 <= i < |Fingerprints| => Fingerprints[i] + SiteOperator + siteDomain)
  }

  /** Inverse of `Dorks`: which fingerprint a query uses (the first that
      matches, in issuing order) and the domain suffix it is restricted to. */
  function ParseDork(q: string, from: nat := 0): Option<(nat, string)>
    decreases |Fingerprints| - from
  {
    if from >= |Fingerprints| then None
    else
      var p := Fingerprints[from] + SiteOperator;
      if StartsWith(q, p) then Some((from, q[|p|..])) else ParseDork(q, from + 1)
  }

  /** No fingerprint-plus-operator prefix is shared by two fingerprints: all
      five already differ within their first seven characters. */
  lemma FingerprintsPrefixFree(q: string, i: nat, j: nat)
    requires i < |Fingerprints| && j < |Fingerprints| && i != j
    requires StartsWith(q, Fingerprints[i] + SiteOperator)
    ensures !StartsWith(q, Fingerprints[j] + SiteOperator)
  {
    assert Fingerprints[0][..7] == "inurl:w";
    assert Fingerprints[1][..7] == "inurl:\"";
    assert Fingerprints[2][..7] == "inurl:r";
    assert Fingerprints[3][..7] == "\"Powere";
    assert Fingerprints[4][..7] == "intitle";
    var pi, pj := Fingerprints[i] + SiteOperator, Fingerprints[j] + SiteOperator;
    assert pi[..7] == Fingerprints[i][..7] != Fingerprints[j][..7] == pj[..7];
    SharedPrefix(q, pi, pj, 7);
  }

  lemma {:induction false} ParseDorkFinds(q: string, i: nat, from: nat)
    requires from <= i < |Fingerprints|
    requires StartsWith(q, Fingerprints[i] + SiteOperator)
    ensures ParseDork(q, from) == Some((i, q[|Fingerprints[i] + SiteOperator|..]))
    decreases i - from
  {
    if from < i {
      FingerprintsPrefixFree(q, i, from);
      ParseDorkFinds(q, i, from + 1);
    }
  }

  /** Every generated query reads back as its position and the domain suffix. */
  lemma DorksRoundTrip(siteDomain: string, i: nat)
    requires i < 5
    ensures ParseDork(Dorks(siteDomain)[i]) == Some((i, siteDomain))
  {
    var q := Dorks(siteDomain)[i];
    ParseDorkFinds(q, i, 0);
    assert q[|Fingerprints[i] + SiteOperator|..] == siteDomain;
  }

  /** The five queries of one run are pairwise different. */
  lemma DorksDistinct(siteDomain: string)
    ensures Distinct(Dorks(siteDomain))
  {
    forall i, j | 0 <= i < j < 5
      ensures Dorks(siteDomain)[i] != Dorks(siteDomain)[j]
    {
      DorksRoundTrip(siteDomain, i);
      DorksRoundTrip(siteDomain, j);
    }
  }

  /** Different domain suffixes never share a query. */
  lemma DorksInjective(a: string, b: string, i: nat, j: nat)
    requires i < 5 && j < 5
    requires Dorks(a)[i] == Dorks(b)[j]
    ensures a == b && i == j
  {
    DorksRoundTrip(a, i);
    DorksRoundTrip(b, j);
  }
}
