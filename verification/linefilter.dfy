/**
 The shape shared by `readLines` and `countRules`: trim every scanned line and
 keep the trimmed lines that a predicate accepts, in input order.
 */
module LineFilter {
  import opened Strings

  /** Every line trimmed, position by position. */
  function Trimmed(lines: seq<string>): (r: seq<string>)
    ensures |r| == |lines|
    ensures forall i | 0 <= i < |lines| :: r[i] == TrimSpace(lines[i])
  {
    seq(|lines|, i requires 0 <= i < |lines| => TrimSpace(lines[i]))
  }

  /** `xs` is `ys` with some elements left out and the rest in their order. */
  ghost predicate IsSubsequence<T>(xs: seq<T>, ys: seq<T>)
    decreases |ys|
  {
    if xs == [] then true
    else if ys == [] then false
    else (xs[0] == ys[0] && IsSubsequence(xs[1..], ys[1..])) || IsSubsequence(xs, ys[1..])
  }

  /** The trimmed lines that `keep` accepts, in input order. */
  function KeepTrimmed(lines: seq<string>, keep: string -> bool): (r: seq<string>)
    ensures |r| <= |lines|
    ensures forall k | 0 <= k < |r| :: keep(r[k]) && IsTrimmed(r[k])
  {
    if |lines| == 0 then []
    else
      var t := TrimSpace(lines[0]);
      (if keep(t) then [t] else []) + KeepTrimmed(lines[1..], keep)
  }

  /** The positions of the input lines whose trim `keep` accepts. */
  ghost function AcceptedIndices(lines: seq<string>, keep: string -> bool): set<int>
  {
    set i | 0 <= i < |lines| && keep(TrimSpace(lines[i]))
  }

  /**
   What filtering promises: only accepted trimmed lines, all of them, one per
   accepted input line (duplicates included), in input order.
   */
  lemma KeepTrimmedSpec(lines: seq<string>, keep: string -> bool)
    ensures forall i | 0 <= i < |lines| && keep(TrimSpace(lines[i])) :: TrimSpace(lines[i]) in KeepTrimmed(lines, keep)
    ensures IsSubsequence(KeepTrimmed(lines, keep), Trimmed(lines))
    ensures |KeepTrimmed(lines, keep)| == |AcceptedIndices(lines, keep)|
  {
    KeepTrimmedCount(lines, keep);
    forall i | 0 <= i < |lines| && keep(TrimSpace(lines[i]))
      ensures TrimSpace(lines[i]) in KeepTrimmed(lines, keep)
    {
      KeepTrimmedComplete(lines, keep, i);
    }
    KeepTrimmedIsSubsequence(lines, keep);
  }

  /** One line is kept for every accepted input line. */
  lemma {:induction false} KeepTrimmedCount(lines: seq<string>, keep: string -> bool)
    ensures |KeepTrimmed(lines, keep)| == |AcceptedIndices(lines, keep)|
    decreases |lines|
  {
    if |lines| > 0 {
      var n := |lines| - 1;
      var init := lines[..n];
      KeepTrimmedCount(init, keep);
      KeepTrimmedPrefix(lines, n, keep);
      assert lines[..n + 1] == lines;
      AcceptedIndicesSnoc(lines, n, keep);
    }
  }

  /** The accepted positions of the first `n + 1` lines are those of the first `n`, plus `n` when line `n` is accepted. */
  lemma AcceptedIndicesSnoc(lines: seq<string>, n: nat, keep: string -> bool)
    requires n + 1 == |lines|
    ensures keep(TrimSpace(lines[n])) ==> AcceptedIndices(lines, keep) == AcceptedIndices(lines[..n], keep) + {n}
    ensures !keep(TrimSpace(lines[n])) ==> AcceptedIndices(lines, keep) == AcceptedIndices(lines[..n], keep)
    ensures n !in AcceptedIndices(lines[..n], keep)
  {
    assert forall i | 0 <= i < n :: lines[..n][i] == lines[i];
  }

  /** Nothing is kept exactly when `keep` accepts no trimmed line. */
  lemma {:induction false} KeepTrimmedEmpty(lines: seq<string>, keep: string -> bool)
    ensures KeepTrimmed(lines, keep) == [] <==> forall i | 0 <= i < |lines| :: !keep(TrimSpace(lines[i]))
  {
    if |lines| > 0 {
      KeepTrimmedEmpty(lines[1..], keep);
      assert forall i | 1 <= i < |lines| :: lines[1..][i - 1] == lines[i];
    }
  }

  /** A kept line holds no character that its input line lacks. */
  lemma {:induction false} KeepTrimmedAvoids(lines: seq<string>, keep: string -> bool, c: char)
    requires forall i | 0 <= i < |lines| :: c !in lines[i]
    ensures forall k | 0 <= k < |KeepTrimmed(lines, keep)| :: c !in KeepTrimmed(lines, keep)[k]
  {
    if |lines| > 0 {
      TrimSpaceAvoids(lines[0], c);
      KeepTrimmedAvoids(lines[1..], keep, c);
    }
  }

  /** One more scanned line adds its trim when `keep` accepts it, and nothing otherwise. */
  lemma KeepTrimmedSnoc(lines: seq<string>, line: string, keep: string -> bool)
    ensures KeepTrimmed(lines + [line], keep)
         == KeepTrimmed(lines, keep) + (if keep(TrimSpace(line)) then [TrimSpace(line)] else [])
  {
    KeepTrimmedAppend(lines, [line], keep);
    assert [line][1..] == [];
  }

  /** One loop step: filtering the first `i + 1` lines adds the verdict on line `i`. */
  lemma KeepTrimmedPrefix(lines: seq<string>, i: nat, keep: string -> bool)
    requires i < |lines|
    ensures KeepTrimmed(lines[..i + 1], keep)
         == KeepTrimmed(lines[..i], keep) + (if keep(TrimSpace(lines[i])) then [TrimSpace(lines[i])] else [])
  {
    assert lines[..i + 1] == lines[..i] + [lines[i]];
    KeepTrimmedSnoc(lines[..i], lines[i], keep);
  }

  /** Filtering distributes over concatenation; it is what makes a line-by-line loop correct. */
  lemma {:induction false} KeepTrimmedAppend(a: seq<string>, b: seq<string>, keep: string -> bool)
    ensures KeepTrimmed(a + b, keep) == KeepTrimmed(a, keep) + KeepTrimmed(b, keep)
  {
    if |a| > 0 {
      assert (a + b)[0] == a[0];
      assert (a + b)[1..] == a[1..] + b;
      KeepTrimmedAppend(a[1..], b, keep);
    } else {
      assert a + b == b;
    }
  }

  /** No accepted line is lost. */
  lemma {:induction false} KeepTrimmedComplete(lines: seq<string>, keep: string -> bool, i: nat)
    requires i < |lines| && keep(TrimSpace(lines[i]))
    ensures TrimSpace(lines[i]) in KeepTrimmed(lines, keep)
  {
    if i > 0 {
      assert lines[1..][i - 1] == lines[i];
      KeepTrimmedComplete(lines[1..], keep, i - 1);
    }
  }

  /** The kept lines are the trimmed lines with some left out and none reordered. */
  lemma {:induction false} KeepTrimmedIsSubsequence(lines: seq<string>, keep: string -> bool)
    ensures IsSubsequence(KeepTrimmed(lines, keep), Trimmed(lines))
  {
    if |lines| > 0 {
      KeepTrimmedIsSubsequence(lines[1..], keep);
      assert Trimmed(lines)[1..] == Trimmed(lines[1..]);
      var t := TrimSpace(lines[0]);
      var r := KeepTrimmed(lines, keep);
      if keep(t) {
        assert r[1..] == KeepTrimmed(lines[1..], keep);
      } else {
        assert r == KeepTrimmed(lines[1..], keep);
        SkipHead(r, Trimmed(lines));
      }
    }
  }

  /** A subsequence of the tail is a subsequence of the whole. */
  lemma {:induction false} SkipHead<T>(xs: seq<T>, ys: seq<T>)
    requires ys != [] && IsSubsequence(xs, ys[1..])
    ensures IsSubsequence(xs, ys)
  {
  }

}
