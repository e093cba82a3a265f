/**
 Line splitting as `bufio.Scanner` with its default `ScanLines` split function
 performs it: a line ends at '\n', one '\r' before that '\n' (or before the end
 of input) is dropped, and input that ends with '\n' yields no empty final line.
 The scanner's limit on the length of one line is not modelled.
 */
module Scanner {
  import opened Strings

  /** Removes one trailing carriage return. */
  function DropCR(s: string): (r: string)
    ensures r <= s
  {
    if |s| > 0 && s[|s| - 1] == '\r' then s[..|s| - 1] else s
  }

  predicate EndsWithCR(s: string) {
    |s| > 0 && s[|s| - 1] == '\r'
  }

  /** The lines the scanner yields for `s`, in order. */
  function Lines(s: string): (r: seq<string>)
    ensures |r| <= |s|
    ensures s == [] <==> r == []
    decreases |s|
  {
    if |s| == 0 then []
    else
      var i := IndexOf(s, '\n', 0);
      if i == |s| then [DropCR(s)]
      else [DropCR(s[..i])] + Lines(s[i + 1..])
  }

  /** No scanned line holds a '\n'. */
  lemma {:induction false} LinesHaveNoNewline(s: string)
    ensures forall k | 0 <= k < |Lines(s)| :: '\n' !in Lines(s)[k]
    decreases |s|
  {
    if |s| > 0 {
      var i := IndexOf(s, '\n', 0);
      IndexOfPrefixFree(s, '\n');
      if i < |s| {
        LinesAtNewline(s, i);
        LinesHaveNoNewline(s[i + 1..]);
      } else {
        assert s[..i] == s;
      }
    }
  }

  /** Each string written followed by '\n', as the header's `WriteString` calls do. */
  function Terminated(ls: seq<string>): (r: string)
    ensures |ls| == 0 ==> r == []
    ensures |ls| > 0 ==> |r| > 0 && r[|r| - 1] == '\n'
  {
    if |ls| == 0 then [] else ls[0] + "\n" + Terminated(ls[1..])
  }

  /** Writing lines with a '\n' after each and scanning them back gives the lines again. */
  lemma {:induction false} LinesOfTerminated(ls: seq<string>)
    requires forall k | 0 <= k < |ls| :: '\n' !in ls[k] && !EndsWithCR(ls[k])
    ensures Lines(Terminated(ls)) == ls
  {
    if |ls| > 0 {
      var s := Terminated(ls);
      var rest := Terminated(ls[1..]);
      assert s == ls[0] + ['\n'] + rest;
      IndexOfAfter(ls[0], '\n', rest);
      assert s[..|ls[0]|] == ls[0];
      assert s[|ls[0]| + 1..] == rest;
      LinesOfTerminated(ls[1..]);
    }
  }

  /** An empty line appears at a '\n' that follows an empty `a` or an `a` that already ends in '\n'. */
  function Gap(a: string): seq<string>
  {
    if a == [] || a[|a| - 1] == '\n' then [""] else []
  }

  /**
   Scanning `a + "\n" + b` yields the lines of `a`, then the lines of `b`,
   with one empty line between them when `a` is empty or ends in '\n'.
   */
  lemma {:induction false} LinesOfJoined(a: string, b: string)
    ensures Lines(a + "\n" + b) == Lines(a) + Gap(a) + Lines(b)
    decreases |a|
  {
    if a == [] {
      LinesAfterNewline(b);
      assert a + "\n" + b == "\n" + b;
    } else {
      var j := IndexOf(a, '\n', 0);
      if j == |a| {
        LinesOfLastLine(a, b);
      } else {
        LinesOfJoinedStep(a, b, j);
        LinesOfJoined(a[j + 1..], b);
        GapOfSuffix(a, j);
        ConsAssoc(DropCR(a[..j]), Lines(a[j + 1..]), Gap(a), Lines(b));
      }
    }
  }

  lemma ConsAssoc(x: string, l: seq<string>, g: seq<string>, m: seq<string>)
    ensures [x] + (l + g + m) == ([x] + l) + g + m
  {
  }

  /** Cutting `a` just after one of its '\n' leaves its final gap unchanged. */
  lemma GapOfSuffix(a: string, j: nat)
    requires j < |a| && a[j] == '\n'
    ensures Gap(a[j + 1..]) == Gap(a)
  {
    if a[j + 1..] != [] {
      assert a[j + 1..][|a[j + 1..]| - 1] == a[|a| - 1];
    }
  }

  lemma LinesAfterNewline(b: string)
    ensures Lines("\n" + b) == [""] + Lines(b)
  {
    var s := "\n" + b;
    assert IndexOf(s, '\n', 0) == 0;
    assert s[1..] == b;
    assert s[..0] == "";
  }

  lemma LinesOfLastLine(a: string, b: string)
    requires a != [] && IndexOf(a, '\n', 0) == |a|
    ensures Lines(a + "\n" + b) == Lines(a) + Lines(b)
    ensures a[|a| - 1] != '\n'
  {
    var s := a + "\n" + b;
    IndexOfPrefixFree(a, '\n');
    assert a[..|a|] == a;
    IndexOfAfter(a, '\n', b);
    assert s[..|a|] == a;
    assert s[|a| + 1..] == b;
  }

  lemma LinesOfJoinedStep(a: string, b: string, j: nat)
    requires j == IndexOf(a, '\n', 0) < |a|
    ensures Lines(a + "\n" + b) == [DropCR(a[..j])] + Lines(a[j + 1..] + "\n" + b)
    ensures Lines(a) == [DropCR(a[..j])] + Lines(a[j + 1..])
  {
    FirstNewlineOfJoined(a, b, j);
    SlicesOfJoined(a, b, j);
    LinesAtNewline(a + "\n" + b, j);
    LinesAtNewline(a, j);
  }

  /** The first '\n' of `a` is also the first of `a + "\n" + b`. */
  lemma FirstNewlineOfJoined(a: string, b: string, j: nat)
    requires j == IndexOf(a, '\n', 0) < |a|
    ensures IndexOf(a + "\n" + b, '\n', 0) == j
  {
    IndexOfPrefix(a, '\n', "\n" + b);
    assert a + "\n" + b == a + ("\n" + b);
  }

  lemma SlicesOfJoined(a: string, b: string, j: nat)
    requires j < |a|
    ensures (a + "\n" + b)[..j] == a[..j]
    ensures (a + "\n" + b)[j + 1..] == a[j + 1..] + "\n" + b
  {
  }

  /** Unfolds `Lines` at the first '\n'. */
  lemma LinesAtNewline(s: string, j: nat)
    requires j == IndexOf(s, '\n', 0) < |s|
    ensures Lines(s) == [DropCR(s[..j])] + Lines(s[j + 1..])
  {
  }

}
