/** The per-target record `main` writes to the output file: a header line
    with the URL, the page text, and an 80-character `=` separator, written
    only for targets whose text is non-empty. The page fetch is a parameter. */
module Report {
  import opened Wrappers
  import opened Strings

  const Header: string := "--- URL: "
  const SeparatorWidth: nat := 80

  /** `"=" * 80`: a line of exactly 80 `=` characters. */
  function Separator(): (s: string)
    ensures |s| == SeparatorWidth == 80
    ensures forall k :: 0 <= k < |s| ==> s[k] == '='
  {
    Repeat('=', SeparatorWidth)
  }

  /** What follows the page text in a record. */
  function Trailer(): string {
    "\n\n" + Separator() + "\n\n"
  }

  /** The text written for one target whose page text is `text`. */
  function FormatRecord(url: string, text: string): (r: string)
    ensures r == "" <==> text == ""
    ensures text != "" ==>
      && StartsWith(r, Header + url + "\n")
      && EndsWith(r, Trailer())
      && |r| == |Header| + |url| + 1 + |text| + |Trailer()|
  {
    if text == "" then "" else Header + url + "\n" + text + Trailer()
  }

  /** Reads the page text back out of a record, knowing its URL. */
  function RecordText(url: string, r: string): string {
    var start := |Header| + |url| + 1;
    if |r| < start + |Trailer()| then "" else r[start..|r| - |Trailer()|]
  }

  /** A record determines the page text it was made from. */
  lemma RecordRoundTrip(url: string, text: string)
    ensures RecordText(url, FormatRecord(url, text)) == text
  {
    if text != "" {
      var r := FormatRecord(url, text);
      var start := |Header| + |url| + 1;
      assert r == (Header + url + "\n") + text + Trailer();
      assert r[start..|r| - |Trailer()|] == text;
    }
  }

  /** The file contents after the loop over the targets. */
  function Records(targets: seq<string>, fetch: string -> string): string {
    if |targets| == 0 then "" else FormatRecord(targets[0], fetch(targets[0])) + Records(targets[1..], fetch)
  }

  /** The targets whose page text is non-empty, in order. */
  function WithText(targets: seq<string>, fetch: string -> string): (r: seq<string>)
    ensures forall t :: t in r <==> t in targets && fetch(t) != ""
  {
    if |targets| == 0 then []
    else if fetch(targets[0]) == "" then WithText(targets[1..], fetch)
    else [targets[0]] + WithText(targets[1..], fetch)
  }

  /** The output is appended target by target: two batches of targets give
      the concatenation of their outputs. */
  lemma {:induction false} RecordsAppend(a: seq<string>, b: seq<string>, fetch: string -> string)
    ensures Records(a + b, fetch) == Records(a, fetch) + Records(b, fetch)
  {
    if |a| > 0 {
      var head := FormatRecord(a[0], fetch(a[0]));
      assert (a + b)[0] == a[0];
      assert (a + b)[1..] == a[1..] + b;
      RecordsAppend(a[1..], b, fetch);
      calc {
        Records(a + b, fetch);
        head + Records(a[1..] + b, fetch);
        head + (Records(a[1..], fetch) + Records(b, fetch));
        (head + Records(a[1..], fetch)) + Records(b, fetch);
        Records(a, fetch) + Records(b, fetch);
      }
    } else {
      assert a + b == b;
    }
  }

  /** Targets without page text write nothing: the output is that of the
      targets with text alone. */
  lemma {:induction false} RecordsSkipEmpty(targets: seq<string>, fetch: string -> string)
    ensures Records(targets, fetch) == Records(WithText(targets, fetch), fetch)
  {
    if |targets| > 0 {
      RecordsSkipEmpty(targets[1..], fetch);
      if fetch(targets[0]) != "" {
        var rest := WithText(targets[1..], fetch);
        assert ([targets[0]] + rest)[1..] == rest;
      }
    }
  }

  /** The output is empty exactly when no target yields text. */
  lemma {:induction false} RecordsEmpty(targets: seq<string>, fetch: string -> string)
    ensures Records(targets, fetch) == "" <==> forall i :: 0 <= i < |targets| ==> fetch(targets[i]) == ""
  {
    if |targets| > 0 {
      RecordsEmpty(targets[1..], fetch);
      if forall i :: 0 <= i < |targets[1..]| ==> fetch(targets[1..][i]) == "" {
        forall i | 0 < i < |targets| ensures fetch(targets[i]) == "" {
          assert targets[i] == targets[1..][i - 1];
        }
      }
    }
  }

  /** Writing one more target appends its record. */
  lemma RecordsSnoc(targets: seq<string>, i: nat, fetch: string -> string)
    requires i < |targets|
    ensures Records(targets[..i + 1], fetch) == Records(targets[..i], fetch) + FormatRecord(targets[i], fetch(targets[i]))
  {
    assert targets[..i + 1] == targets[..i] + [targets[i]];
    assert [targets[i]][1..] == [];
    RecordsAppend(targets[..i], [targets[i]], fetch);
  }

  /** The loop of `main` over the targets, on a freshly emptied file: each
      target with page text appends its record, in target order. */
  method WriteRecords(targets: seq<string>, fetch: string -> string) returns (file: string)
    ensures file == Records(WithText(targets, fetch), fetch)
  {
    file := "";
    for i := 0 to |targets|
      invariant file == Records(targets[..i], fetch)
    {
      var pageText := fetch(targets[i]);
      RecordsSnoc(targets, i, fetch);
      if pageText != "" {
        file := file + FormatRecord(targets[i], pageText);
      }
    }
    assert targets[..|targets|] == targets;
    RecordsSkipEmpty(targets, fetch);
  }

  /** `main` after discovery: with no targets it exits before opening the
      output file (None); otherwise the file is opened for writing, which
      empties it, and receives the records. */
  function WriteReport(targets: seq<string>, fetch: string -> string): (report: Option<string>)
    ensures report == if |targets| == 0 then None else Some(Records(WithText(targets, fetch), fetch))
  {
    RecordsSkipEmpty(targets, fetch);
    if |targets| == 0 then None else Some(Records(targets, fetch))
  }
}
