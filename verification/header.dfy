/**
 The two parts of the output header built from the run (main.go, `main`): the
 "Total sources" counts line and the "Source URLs" block with one `# - url`
 line per source. Each is paired with a parser that reads it back, which is how
 the model states that the header reports exactly what was collected.
 The "Total rules" line is modelled too; the title, version, build time and
 homepage lines are not.
 */
module Header {
  import opened Options
  import opened Scanner
  import opened Download
  import opened Collect
  import opened Strings
  import opened SourceList

  predicate IsDigit(c: char) {
    '0' <= c <= '9'
  }

  predicate AllDigits(s: string) {
    forall k | 0 <= k < |s| :: IsDigit(s[k])
  }

  /** `%d` of a non-negative count: decimal digits, no sign, no leading zero. */
  function Decimal(n: nat): (r: string)
    ensures |r| >= 1 && AllDigits(r)
    ensures r[0] == '0' ==> n == 0
    ensures n == 0 ==> r == "0"
    ensures r[0] == '0' ==> r == "0"
  {
    if n < 10 then [(48 + n) as char]
    else Decimal(n / 10) + [(48 + n % 10) as char]
  }

  /** The number a run of decimal digits denotes. */
  function DigitsValue(s: string): nat
    requires AllDigits(s)
  {
    if |s| == 0 then 0 else DigitsValue(s[..|s| - 1]) * 10 + (s[|s| - 1] as int - 48)
  }

  lemma {:induction false} DecimalRoundTrip(n: nat)
    ensures DigitsValue(Decimal(n)) == n
  {
    if n >= 10 {
      var d := Decimal(n);
      assert d[..|d| - 1] == Decimal(n / 10);
      DecimalRoundTrip(n / 10);
    }
  }

  /** The end of the run of digits starting at `from`. */
  function DigitRun(s: string, from: nat): (i: nat)
    requires from <= |s|
    ensures from <= i <= |s|
    ensures forall k | from <= k < i :: IsDigit(s[k])
    ensures i < |s| ==> !IsDigit(s[i])
    decreases |s| - from
  {
    if from == |s| || !IsDigit(s[from]) then from else DigitRun(s, from + 1)
  }

  /** Reads a leading decimal number and returns it with the rest of the input. */
  function ParseNumber(s: string): Option<(nat, string)>
  {
    var i := DigitRun(s, 0);
    if i == 0 then None
    else
      assert AllDigits(s[..i]) by {
        forall k | 0 <= k < i ensures IsDigit(s[..i][k]) { }
      }
      Some((DigitsValue(s[..i]), s[i..]))
  }

  /** Reads the literal `lit` and returns the rest of the input. */
  function Expect(s: string, lit: string): Option<string>
  {
    if lit <= s then Some(s[|lit|..]) else None
  }

  lemma ParseNumberOfDecimal(n: nat, rest: string)
    requires rest == [] || !IsDigit(rest[0])
    ensures ParseNumber(Decimal(n) + rest) == Some((n, rest))
  {
    var d := Decimal(n);
    var s := d + rest;
    var i := DigitRun(s, 0);
    forall k | 0 <= k < |d| ensures IsDigit(s[k]) {
      assert s[k] == d[k];
    }
    if |d| < |s| {
      assert s[|d|] == rest[0];
    }
    assert i == |d|;
    assert s[..i] == d;
    assert s[i..] == rest;
    DecimalRoundTrip(n);
  }

  lemma ExpectPrefix(lit: string, rest: string)
    ensures Expect(lit + rest, lit) == Some(rest)
  {
    assert (lit + rest)[|lit|..] == rest;
  }

  /** `# Total sources: T (Success: S, Failed: F)`, written with its '\n'. */
  function CountsLine(s: Summary): (r: string)
    ensures HasPrefix(r, "# Total sources: ")
    ensures |r| > 0 && r[|r| - 1] == '\n'
  {
    "# Total sources: " + Decimal(s.total)
    + " (Success: " + Decimal(s.success)
    + ", Failed: " + Decimal(s.failed)
    + ")\n"
  }

  /** `# Total rules: N`, written with its '\n'; N is what `countRules` returns for the compiled list. */
  function RulesLine(count: nat): (r: string)
    ensures HasPrefix(r, "# Total rules: ")
    ensures |r| > 0 && r[|r| - 1] == '\n'
  {
    "# Total rules: " + Decimal(count) + "\n"
  }

  /** Reads a rule-count line back. */
  function ParseRulesLine(line: string): Option<nat>
  {
    var a :- Expect(line, "# Total rules: ");
    var n :- ParseNumber(a);
    if n.1 == "\n" then Some(n.0) else None
  }

  /** The rule-count line reports exactly the count it was built from. */
  lemma RulesLineRoundTrip(count: nat)
    ensures ParseRulesLine(RulesLine(count)) == Some(count)
  {
    var p, d := "# Total rules: ", Decimal(count);
    assert RulesLine(count) == p + (d + "\n");
    ExpectPrefix(p, d + "\n");
    ParseNumberOfDecimal(count, "\n");
  }

  /** Reads a counts line back. */
  function ParseCountsLine(line: string): Option<Summary>
  {
    var a :- Expect(line, "# Total sources: ");
    var total :- ParseNumber(a);
    ParseOutcomeCounts(total.0, total.1)
  }

  /** Reads the part of a counts line after the total. */
  function ParseOutcomeCounts(total: nat, rest: string): Option<Summary>
  {
    var b :- Expect(rest, " (Success: ");
    var success :- ParseNumber(b);
    var c :- Expect(success.1, ", Failed: ");
    var failed :- ParseNumber(c);
    if failed.1 == ")\n" then Some(Summary(total, success.0, failed.0)) else None
  }

  /** The counts line reports exactly the summary it was built from. */
  lemma CountsLineRoundTrip(s: Summary)
    ensures ParseCountsLine(CountsLine(s)) == Some(s)
  {
    var p1 := "# Total sources: ";
    var t := Decimal(s.total);
    var r1 := " (Success: " + Decimal(s.success) + ", Failed: " + Decimal(s.failed) + ")\n";
    assert CountsLine(s) == p1 + (t + r1);
    ExpectPrefix(p1, t + r1);
    ParseNumberOfDecimal(s.total, r1);
    OutcomeCountsRoundTrip(s);
  }

  lemma OutcomeCountsRoundTrip(s: Summary)
    ensures ParseOutcomeCounts(s.total,
      " (Success: " + Decimal(s.success) + ", Failed: " + Decimal(s.failed) + ")\n") == Some(s)
  {
    var p2, p3, p4 := " (Success: ", ", Failed: ", ")\n";
    var u, f := Decimal(s.success), Decimal(s.failed);
    var r2 := p3 + f + p4;
    assert p2 + u + p3 + f + p4 == p2 + (u + r2);
    ExpectPrefix(p2, u + r2);
    ParseNumberOfDecimal(s.success, r2);
    assert r2 == p3 + (f + p4);
    ExpectPrefix(p3, f + p4);
    ParseNumberOfDecimal(s.failed, p4);
  }

  /** One `# - url` line per source, in list order, without their '\n'. */
  function UrlLines(urls: seq<string>): (r: seq<string>)
    ensures |r| == |urls|
    ensures forall i | 0 <= i < |urls| :: r[i] == "# - " + urls[i]
  {
    seq(|urls|, i requires 0 <= i < |urls| => "# - " + urls[i])
  }

  /** The "Source URLs" block: its heading line, then the URL lines, each written with a '\n'. */
  function SourceUrlsBlock(urls: seq<string>): (r: string)
    ensures HasPrefix(r, "# Source URLs:\n")
    ensures r[|r| - 1] == '\n'
  {
    var ls := ["# Source URLs:"] + UrlLines(urls);
    assert ls[0] == "# Source URLs:" && ls[1..] == UrlLines(urls);
    Terminated(ls)
  }

  /** Reads a "Source URLs" block back into its list of URLs. */
  function ParseSourceUrls(block: string): Option<seq<string>>
  {
    ParseUrlLines(Lines(block))
  }

  /** Reads the scanned lines of a "Source URLs" block: the heading, then one `# - url` line per URL. */
  function ParseUrlLines(ls: seq<string>): Option<seq<string>>
  {
    if |ls| >= 1 && ls[0] == "# Source URLs:" && forall k | 1 <= k < |ls| :: "# - " <= ls[k]
    then Some(seq(|ls| - 1, i requires 0 <= i < |ls| - 1 => ls[i + 1][4..]))
    else None
  }

  /** The block lists exactly the given URLs, one line each, in order. */
  lemma SourceUrlsRoundTrip(urls: seq<string>)
    requires forall k | 0 <= k < |urls| :: '\n' !in urls[k] && !EndsWithCR(urls[k])
    ensures ParseSourceUrls(SourceUrlsBlock(urls)) == Some(urls)
    ensures |Lines(SourceUrlsBlock(urls))| == |urls| + 1
  {
    var ls := ["# Source URLs:"] + UrlLines(urls);
    BlockLinesAreClean(urls);
    LinesOfTerminated(ls);
    assert SourceUrlsBlock(urls) == Terminated(ls);
    UrlLinesRoundTrip(urls);
  }

  /** No line of the block holds a '\n' or ends in '\r' when no URL does. */
  lemma BlockLinesAreClean(urls: seq<string>)
    requires forall k | 0 <= k < |urls| :: '\n' !in urls[k] && !EndsWithCR(urls[k])
    ensures forall k | 0 <= k < |["# Source URLs:"] + UrlLines(urls)| ::
      '\n' !in (["# Source URLs:"] + UrlLines(urls))[k] && !EndsWithCR((["# Source URLs:"] + UrlLines(urls))[k])
  {
    var ls := ["# Source URLs:"] + UrlLines(urls);
    forall k | 0 <= k < |ls| ensures '\n' !in ls[k] && !EndsWithCR(ls[k]) {
      if k > 0 {
        var u := urls[k - 1];
        assert ls[k] == "# - " + u;
        if u != [] {
          assert ls[k][|ls[k]| - 1] == u[|u| - 1];
        }
      }
    }
  }

  /** The block's lines read back as the URLs. */
  lemma UrlLinesRoundTrip(urls: seq<string>)
    ensures ParseUrlLines(["# Source URLs:"] + UrlLines(urls)) == Some(urls)
  {
    var ls := ["# Source URLs:"] + UrlLines(urls);
    var parsed := seq(|ls| - 1, i requires 0 <= i < |ls| - 1 => ls[i + 1][4..]);
    forall i | 0 <= i < |urls| ensures parsed[i] == urls[i] {
      assert ls[i + 1] == "# - " + urls[i];
    }
    assert parsed == urls;
    assert forall k | 1 <= k < |ls| :: "# - " <= ls[k];
  }

  /** The header names every source URL read from the rules file, in file order. */
  lemma HeaderListsSources(text: string)
    ensures ParseSourceUrls(SourceUrlsBlock(SourceLines(text))) == Some(SourceLines(text))
  {
    var urls := SourceLines(text);
    forall k | 0 <= k < |urls| ensures !EndsWithCR(urls[k]) {
      assert IsTrimmed(TrimSpace(urls[k]));
    }
    SourceUrlsRoundTrip(urls);
  }

  /**
   When a run gets as far as writing its header, the counts line reports the
   number of sources, and a success count and a failure count that add up to it,
   with at least one success.
   */
  lemma HeaderCountsReportRun(urls: seq<string>, exchanges: seq<Exchange>, arrival: seq<DownloadResult>)
    requires IsArrivalOrder(urls, exchanges, arrival)
    requires Aggregate(|urls|, arrival).Merged?
    ensures ParseCountsLine(CountsLine(Aggregate(|urls|, arrival).summary)).Some?
    ensures var s := ParseCountsLine(CountsLine(Aggregate(|urls|, arrival).summary)).value;
            s.total == |urls| && s.success + s.failed == s.total && s.success >= 1
  {
    RunAccounts(urls, exchanges, arrival);
    CountsLineRoundTrip(Aggregate(|urls|, arrival).summary);
  }

}
