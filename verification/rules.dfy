/**
 `countRules` (main.go): the number of rules in the compiled list, that is, of
 trimmed lines that are neither blank nor comments. Both `!` (AdGuard) and `#`
 (hosts) comments are skipped.
 */
module RuleCount {
  import opened Strings
  import opened Scanner
  import opened LineFilter

  /** A trimmed line is a rule when it is not blank and not a `!` or `#` comment. */
  predicate IsRule(t: string) {
    t != "" && !HasPrefix(t, "!") && !HasPrefix(t, "#")
  }

  /** The rule lines of `content`, trimmed, in order. */
  function RuleLines(content: string): (r: seq<string>)
    ensures forall k | 0 <= k < |r| :: IsRule(r[k])
  {
    KeepTrimmed(Lines(content), IsRule)
  }

  /** The scanning loop of `countRules`. */
  method CountRules(content: string) returns (count: nat)
    ensures count == |RuleLines(content)|
    ensures count == |AcceptedIndices(Lines(content), IsRule)|
    ensures count <= |Lines(content)|
  {
    var scanned := Lines(content);
    KeepTrimmedCount(scanned, IsRule);
    count := 0;
    ghost var counted: seq<string> := [];
    var i := 0;
    while i < |scanned|
      invariant i <= |scanned|
      invariant counted == KeepTrimmed(scanned[..i], IsRule)
      invariant count == |counted|
    {
      var line := TrimSpace(scanned[i]);
      KeepTrimmedPrefix(scanned, i, IsRule);
      if IsRule(line) {
        count := count + 1;
        counted := counted + [line];
      }
      i := i + 1;
    }
    assert scanned[..i] == scanned;
  }

  /** The count is zero exactly when every line is blank or a comment. */
  lemma RuleCountZero(content: string)
    ensures |RuleLines(content)| == 0
        ==> forall i | 0 <= i < |Lines(content)| :: !IsRule(TrimSpace(Lines(content)[i]))
    ensures (forall i | 0 <= i < |Lines(content)| :: !IsRule(TrimSpace(Lines(content)[i])))
        ==> |RuleLines(content)| == 0
  {
    KeepTrimmedEmpty(Lines(content), IsRule);
  }

  /**
   Counting is additive over a '\n' join: the rules of `a + "\n" + b` are the
   rules of `a` followed by those of `b`, because the only extra line the join
   can introduce is blank.
   */
  lemma RulesOfJoined(a: string, b: string)
    ensures RuleLines(a + "\n" + b) == RuleLines(a) + RuleLines(b)
  {
    LinesOfJoined(a, b);
    KeepTrimmedAppend(Lines(a) + Gap(a), Lines(b), IsRule);
    KeepTrimmedAppend(Lines(a), Gap(a), IsRule);
    GapHasNoRule(a);
  }

  /** The empty line a join may add is not a rule. */
  lemma GapHasNoRule(a: string)
    ensures KeepTrimmed(Gap(a), IsRule) == []
  {
    if Gap(a) != [] {
      assert TrimSpace("") == "";
    }
  }

}
