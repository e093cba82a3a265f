/**
 `bytes.Join` with a one-character separator, as the merge step uses it, and
 the matching split that undoes it.
 */
module Bytes {
  import opened Strings

  /** The combined length of `parts`. */
  function TotalLength(parts: seq<string>): nat
  {
    if |parts| == 0 then 0 else |parts[0]| + TotalLength(parts[1..])
  }

  /** `parts` with exactly one `sep` between neighbours and none before or after. */
  function Join(parts: seq<string>, sep: char): (r: string)
    ensures |parts| == 0 ==> r == []
    ensures |parts| == 1 ==> r == parts[0]
    ensures |parts| > 0 ==> |r| == TotalLength(parts) + |parts| - 1
    ensures |parts| > 0 ==> parts[0] <= r
    ensures |parts| > 0 ==> HasSuffix(r, parts[|parts| - 1])
  {
    if |parts| == 0 then []
    else if |parts| == 1 then parts[0]
    else
      var tail := Join(parts[1..], sep);
      var r := parts[0] + [sep] + tail;
      SuffixOfAppend(parts[0] + [sep], tail, parts[|parts| - 1]);
      r
  }

  /** `p` is a suffix of `s`. */
  predicate HasSuffix(s: string, p: string) {
    |p| <= |s| && s[|s| - |p|..] == p
  }

  lemma SuffixOfAppend(a: string, b: string, p: string)
    requires HasSuffix(b, p)
    ensures HasSuffix(a + b, p)
  {
    assert (a + b)[|a + b| - |p|..] == b[|b| - |p|..];
  }

  /** The pieces of `s` between occurrences of `sep`; at least one, possibly empty. */
  function Split(s: string, sep: char): (r: seq<string>)
    ensures |r| >= 1
    ensures |r| <= |s| + 1
    decreases |s|
  {
    var i := IndexOf(s, sep, 0);
    if i == |s| then [s]
    else [s[..i]] + Split(s[i + 1..], sep)
  }

  /** Splitting a join gives the parts back when no part holds the separator. */
  lemma {:induction false} SplitJoin(parts: seq<string>, sep: char)
    requires |parts| > 0
    requires forall k | 0 <= k < |parts| :: sep !in parts[k]
    ensures Split(Join(parts, sep), sep) == parts
  {
    if |parts| > 1 {
      var rest := Join(parts[1..], sep);
      IndexOfAfter(parts[0], sep, rest);
      SlicesAroundSeparator(parts[0], sep, rest);
      SplitAt(parts[0] + [sep] + rest, sep, |parts[0]|);
      SplitJoin(parts[1..], sep);
    }
  }

  lemma SlicesAroundSeparator(a: string, sep: char, b: string)
    ensures (a + [sep] + b)[..|a|] == a
    ensures (a + [sep] + b)[|a| + 1..] == b
  {
  }

  /** Joining a split gives the string back. */
  lemma {:induction false} JoinSplit(s: string, sep: char)
    ensures Join(Split(s, sep), sep) == s
    decreases |s|
  {
    var i := IndexOf(s, sep, 0);
    if i < |s| {
      JoinSplit(s[i + 1..], sep);
      SplitAt(s, sep, i);
      JoinCons(s[..i], Split(s[i + 1..], sep), sep);
      Around(s, i);
    } else {
      assert Split(s, sep) == [s];
    }
  }

  /** A sequence is the part before position `i`, the element there, and the part after. */
  lemma Around<T>(s: seq<T>, i: nat)
    requires i < |s|
    ensures s == s[..i] + [s[i]] + s[i + 1..]
  {
  }

  /** Unfolds `Split` at the first separator. */
  lemma SplitAt(s: string, sep: char, i: nat)
    requires i == IndexOf(s, sep, 0) < |s|
    ensures Split(s, sep) == [s[..i]] + Split(s[i + 1..], sep)
  {
  }

  /**
   Joining two non-empty lists of parts one after the other puts exactly one
   separator between the two joins, whatever the parts contain.
   */
  lemma {:induction false} JoinAppend(a: seq<string>, b: seq<string>, sep: char)
    requires |a| > 0 && |b| > 0
    ensures Join(a + b, sep) == Join(a, sep) + [sep] + Join(b, sep)
    decreases |a|
  {
    if |a| == 1 {
      assert a + b == [a[0]] + b;
      JoinCons(a[0], b, sep);
    } else {
      var tail := a[1..];
      assert a + b == [a[0]] + (tail + b);
      assert a == [a[0]] + tail;
      JoinCons(a[0], tail + b, sep);
      JoinCons(a[0], tail, sep);
      JoinAppend(tail, b, sep);
      StringAssoc(a[0] + [sep], Join(tail, sep), [sep] + Join(b, sep));
    }
  }

  lemma StringAssoc(x: string, y: string, z: string)
    ensures x + (y + z) == (x + y) + z
  {
  }

  /** Unfolds `Join` at its first part. */
  lemma JoinCons(first: string, rest: seq<string>, sep: char)
    requires |rest| > 0
    ensures Join([first] + rest, sep) == first + [sep] + Join(rest, sep)
  {
    assert ([first] + rest)[1..] == rest;
  }

}
