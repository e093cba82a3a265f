/**
 The source list: `readLines` (main.go) scans the rules file, trims every line
 and keeps those that are neither blank nor `#` comments.
 */
module SourceList {
  import opened Strings
  import opened Scanner
  import opened LineFilter

  /** A trimmed line names a source when it is not blank and not a `#` comment. */
  predicate IsSourceLine(t: string) {
    t != "" && !HasPrefix(t, "#")
  }

  /** The source URLs listed in `text`, in file order. */
  function SourceLines(text: string): (r: seq<string>)
    ensures forall k | 0 <= k < |r| :: r[k] != "" && !HasPrefix(r[k], "#") && TrimSpace(r[k]) == r[k]
    ensures forall k | 0 <= k < |r| :: '\n' !in r[k]
    ensures forall i | 0 <= i < |Lines(text)| && IsSourceLine(TrimSpace(Lines(text)[i])) :: TrimSpace(Lines(text)[i]) in r
    ensures IsSubsequence(r, Trimmed(Lines(text)))
    ensures |r| == |AcceptedIndices(Lines(text), IsSourceLine)|
    ensures |r| <= |Lines(text)|
  {
    var lines := Lines(text);
    LinesHaveNoNewline(text);
    KeepTrimmedSpec(lines, IsSourceLine);
    KeepTrimmedAvoids(lines, IsSourceLine, '\n');
    var r := KeepTrimmed(lines, IsSourceLine);
    TrimmedAreFixed(r);
    r
  }

  /** Trimmed strings are their own trim. */
  lemma TrimmedAreFixed(r: seq<string>)
    requires forall k | 0 <= k < |r| :: IsTrimmed(r[k])
    ensures forall k | 0 <= k < |r| :: TrimSpace(r[k]) == r[k]
  {
    forall k | 0 <= k < |r| ensures TrimSpace(r[k]) == r[k] {
      TrimSpaceOfTrimmed(r[k]);
    }
  }

  /** The scanning loop of `readLines`. */
  method ReadLines(text: string) returns (lines: seq<string>)
    ensures lines == SourceLines(text)
  {
    var scanned := Lines(text);
    lines := [];
    var i := 0;
    while i < |scanned|
      invariant i <= |scanned|
      invariant lines == KeepTrimmed(scanned[..i], IsSourceLine)
    {
      var line := TrimSpace(scanned[i]);
      if IsSourceLine(line) {
        lines := lines + [line];
      }
      KeepTrimmedPrefix(scanned, i, IsSourceLine);
      i := i + 1;
    }
    assert scanned[..i] == scanned;
    assert lines == KeepTrimmed(Lines(text), IsSourceLine);
  }

  /** Writing the source list back one URL per line and reading it again gives the same list. */
  lemma {:induction false} SourceLinesStable(text: string)
    ensures SourceLines(Terminated(SourceLines(text))) == SourceLines(text)
  {
    var r := SourceLines(text);
    LinesOfTerminated(r);
    KeepTrimmedOfKept(r);
  }

  lemma {:induction false} KeepTrimmedOfKept(r: seq<string>)
    requires forall k | 0 <= k < |r| :: IsSourceLine(r[k]) && TrimSpace(r[k]) == r[k]
    ensures KeepTrimmed(r, IsSourceLine) == r
  {
    if |r| > 0 {
      KeepTrimmedOfKept(r[1..]);
    }
  }

}
