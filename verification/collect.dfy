/**
 Collection, summary and merge (main.go, `main`): the results arrive from the
 workers in some order, are split into successful contents and failed URLs,
 counted, and the successes are joined with '\n'. The workers and channels are
 not modelled; the order in which results arrive is an arbitrary permutation
 of the one result each source URL produces.
 */
module Collect {
  import opened Download
  import opened Bytes

  /** The contents of the successful results, in the order given. */
  function SuccessContents(rs: seq<DownloadResult>): (r: seq<string>)
    ensures |r| <= |rs|
  {
    if |rs| == 0 then []
    else (if rs[0].Succeeded() then [rs[0].content] else []) + SuccessContents(rs[1..])
  }

  /** The URLs of the failed results, in the order given. */
  function FailedUrls(rs: seq<DownloadResult>): (r: seq<string>)
    ensures |r| <= |rs|
  {
    if |rs| == 0 then []
    else (if rs[0].Succeeded() then [] else [rs[0].url]) + FailedUrls(rs[1..])
  }

  /** Every result lands on exactly one side. */
  lemma {:induction false} PartitionSizes(rs: seq<DownloadResult>)
    ensures |SuccessContents(rs)| + |FailedUrls(rs)| == |rs|
  {
    if |rs| > 0 {
      PartitionSizes(rs[1..]);
    }
  }

  /** Both sides of the partition distribute over concatenation. */
  lemma {:induction false} PartitionAppend(a: seq<DownloadResult>, b: seq<DownloadResult>)
    ensures SuccessContents(a + b) == SuccessContents(a) + SuccessContents(b)
    ensures FailedUrls(a + b) == FailedUrls(a) + FailedUrls(b)
  {
    if |a| > 0 {
      assert (a + b)[0] == a[0];
      assert (a + b)[1..] == a[1..] + b;
      PartitionAppend(a[1..], b);
    } else {
      assert a + b == b;
    }
  }

  /** Reordering the results reorders each side of the partition and changes nothing else. */
  lemma {:induction false} PartitionPermutation(xs: seq<DownloadResult>, ys: seq<DownloadResult>)
    requires multiset(xs) == multiset(ys)
    ensures multiset(SuccessContents(xs)) == multiset(SuccessContents(ys))
    ensures multiset(FailedUrls(xs)) == multiset(FailedUrls(ys))
    decreases |xs|
  {
    if |xs| == 0 {
      assert |multiset(ys)| == 0;
      assert ys == [];
    } else {
      var j := RemoveFirst(xs, ys);
      PartitionPermutation(xs[1..], ys[..j] + ys[j + 1..]);
      PartitionInsert(xs, ys, j);
    }
  }

  /** Finds the first element of `xs` in its permutation `ys`; what remains is still a permutation. */
  lemma RemoveFirst<T>(xs: seq<T>, ys: seq<T>) returns (j: nat)
    requires |xs| > 0 && multiset(xs) == multiset(ys)
    ensures j < |ys| && ys[j] == xs[0]
    ensures multiset(xs[1..]) == multiset(ys[..j] + ys[j + 1..])
  {
    assert xs[0] in multiset(xs);
    assert xs[0] in ys;
    j :| 0 <= j < |ys| && ys[j] == xs[0];
    var before, after := ys[..j], ys[j + 1..];
    assert ys == before + [xs[0]] + after;
    assert multiset(ys) == multiset(before) + multiset{xs[0]} + multiset(after);
    assert xs == [xs[0]] + xs[1..];
    assert multiset(xs) == multiset{xs[0]} + multiset(xs[1..]);
    assert multiset(before + after) == multiset(before) + multiset(after);
    assert multiset(xs[1..]) == multiset(xs) - multiset{xs[0]};
    assert multiset(before + after) == multiset(ys) - multiset{xs[0]};
  }

  /** Putting the same result in front of one and in the middle of the other keeps two partitions equal. */
  lemma PartitionInsert(xs: seq<DownloadResult>, ys: seq<DownloadResult>, j: nat)
    requires |xs| > 0 && j < |ys| && ys[j] == xs[0]
    requires multiset(SuccessContents(xs[1..])) == multiset(SuccessContents(ys[..j] + ys[j + 1..]))
    requires multiset(FailedUrls(xs[1..])) == multiset(FailedUrls(ys[..j] + ys[j + 1..]))
    ensures multiset(SuccessContents(xs)) == multiset(SuccessContents(ys))
    ensures multiset(FailedUrls(xs)) == multiset(FailedUrls(ys))
  {
    Around(ys, j);
    Around(xs, 0);
    PartitionAround(ys[..j], xs[0], ys[j + 1..]);
    PartitionAppend([xs[0]], xs[1..]);
  }

  /** Taking one result out of the middle takes its share out of each side. */
  lemma PartitionAround(before: seq<DownloadResult>, x: DownloadResult, after: seq<DownloadResult>)
    ensures multiset(SuccessContents(before + [x] + after))
         == multiset(SuccessContents([x])) + multiset(SuccessContents(before + after))
    ensures multiset(FailedUrls(before + [x] + after))
         == multiset(FailedUrls([x])) + multiset(FailedUrls(before + after))
  {
    PartitionAppend(before + [x], after);
    PartitionAppend(before, [x]);
    PartitionAppend(before, after);
    MultisetMiddle(SuccessContents(before), SuccessContents([x]), SuccessContents(after));
    MultisetMiddle(FailedUrls(before), FailedUrls([x]), FailedUrls(after));
  }

  /** Counting with multiplicity ignores where the middle part sits. */
  lemma MultisetMiddle<T>(a: seq<T>, b: seq<T>, c: seq<T>)
    ensures multiset(a + b + c) == multiset(b) + multiset(a + c)
  {
  }

  /** The collecting loop of `main`: one result received per source, in arrival order. */
  method CollectResults(arrival: seq<DownloadResult>) returns (successful: seq<string>, failed: seq<string>)
    ensures successful == SuccessContents(arrival)
    ensures failed == FailedUrls(arrival)
    ensures |successful| + |failed| == |arrival|
  {
    successful, failed := [], [];
    var i := 0;
    while i < |arrival|
      invariant i <= |arrival|
      invariant successful == SuccessContents(arrival[..i])
      invariant failed == FailedUrls(arrival[..i])
    {
      var res := arrival[i];
      if res.err.Some? {
        failed := failed + [res.url];
      } else {
        successful := successful + [res.content];
      }
      PartitionPrefix(arrival, i);
      i := i + 1;
    }
    assert arrival[..i] == arrival;
    PartitionSizes(arrival);
  }

  /** One loop step: collecting the first `i + 1` results adds result `i` to its side. */
  lemma PartitionPrefix(rs: seq<DownloadResult>, i: nat)
    requires i < |rs|
    ensures SuccessContents(rs[..i + 1]) == SuccessContents(rs[..i]) + (if rs[i].Succeeded() then [rs[i].content] else [])
    ensures FailedUrls(rs[..i + 1]) == FailedUrls(rs[..i]) + (if rs[i].Succeeded() then [] else [rs[i].url])
  {
    assert rs[..i + 1] == rs[..i] + [rs[i]];
    PartitionAppend(rs[..i], [rs[i]]);
    assert [rs[i]][1..] == [];
  }

  /** The counts reported in the log and in the header. */
  datatype Summary = Summary(total: nat, success: nat, failed: nat)

  /** A run either aborts (no download succeeded) or yields the merged rules. */
  datatype Run = Aborted(summary: Summary) | Merged(summary: Summary, content: string)

  /** Summary, abort check and merge over the results in arrival order. */
  function Aggregate(totalSources: nat, arrival: seq<DownloadResult>): (run: Run)
    ensures run.summary.total == totalSources
    ensures run.summary.success == |SuccessContents(arrival)|
    ensures run.summary.failed == |FailedUrls(arrival)|
    ensures run.summary.success + run.summary.failed == |arrival|
    ensures run.Aborted? <==> forall k | 0 <= k < |arrival| :: !arrival[k].Succeeded()
    ensures run.Merged? ==> |run.content| == TotalLength(SuccessContents(arrival)) + run.summary.success - 1
    ensures run.Merged? ==> SuccessContents(arrival)[0] <= run.content
    ensures run.Merged? ==> run.content == Join(SuccessContents(arrival), '\n')
  {
    var successful, failed := SuccessContents(arrival), FailedUrls(arrival);
    PartitionSizes(arrival);
    NoSuccessIff(arrival);
    var summary := Summary(totalSources, |successful|, |failed|);
    if |successful| == 0 then Aborted(summary)
    else Merged(summary, Join(successful, '\n'))
  }

  /** There is no successful content exactly when no result succeeded. */
  lemma {:induction false} NoSuccessIff(rs: seq<DownloadResult>)
    ensures SuccessContents(rs) == [] <==> forall k | 0 <= k < |rs| :: !rs[k].Succeeded()
  {
    if |rs| > 0 {
      NoSuccessIff(rs[1..]);
      assert forall k | 1 <= k < |rs| :: rs[1..][k - 1] == rs[k];
    }
  }

  /**
   Merging follows arrival order piece by piece: when both parts of an arrival
   sequence hold a success, the merge of the whole is the merge of the first
   part, one '\n', then the merge of the second, whatever the contents hold.
   */
  lemma MergeOfAppend(n: nat, a: seq<DownloadResult>, b: seq<DownloadResult>)
    requires SuccessContents(a) != [] && SuccessContents(b) != []
    ensures Aggregate(n, a).Merged? && Aggregate(n, b).Merged? && Aggregate(n, a + b).Merged?
    ensures Aggregate(n, a + b).content == Aggregate(n, a).content + "\n" + Aggregate(n, b).content
  {
    PartitionAppend(a, b);
    JoinAppend(SuccessContents(a), SuccessContents(b), '\n');
  }

  /** The merged rules split back into the successful contents when none of them holds a '\n'. */
  lemma MergedSplitsBack(totalSources: nat, arrival: seq<DownloadResult>)
    requires Aggregate(totalSources, arrival).Merged?
    requires forall k | 0 <= k < |SuccessContents(arrival)| :: '\n' !in SuccessContents(arrival)[k]
    ensures Split(Aggregate(totalSources, arrival).content, '\n') == SuccessContents(arrival)
  {
    SplitJoin(SuccessContents(arrival), '\n');
  }

  /** The result each source URL produces, in source order. */
  function Outcomes(urls: seq<string>, exchanges: seq<Exchange>): (r: seq<DownloadResult>)
    requires |exchanges| == |urls|
    ensures |r| == |urls|
    ensures forall i | 0 <= i < |urls| :: r[i] == Fetch(urls[i], exchanges[i])
  {
    seq(|urls|, i requires 0 <= i < |urls| => Fetch(urls[i], exchanges[i]))
  }

  /** `arrival` is an order in which the workers may hand over the results: one per source URL. */
  predicate IsArrivalOrder(urls: seq<string>, exchanges: seq<Exchange>, arrival: seq<DownloadResult>) {
    |exchanges| == |urls| && multiset(arrival) == multiset(Outcomes(urls, exchanges))
  }

  /** The source URLs whose exchange fails some check, in source order. */
  function FailedSources(urls: seq<string>, exchanges: seq<Exchange>): seq<string>
    requires |exchanges| == |urls|
  {
    if |urls| == 0 then []
    else (if AllStagesPass(exchanges[0]) then [] else [urls[0]]) + FailedSources(urls[1..], exchanges[1..])
  }

  /** The bodies of the exchanges that pass every check, in source order. */
  function DownloadedBodies(urls: seq<string>, exchanges: seq<Exchange>): (r: seq<string>)
    requires |exchanges| == |urls|
  {
    if |urls| == 0 then []
    else (if AllStagesPass(exchanges[0]) then [exchanges[0].body] else []) + DownloadedBodies(urls[1..], exchanges[1..])
  }

  /** In source order, the partition of the results is read off the exchanges directly. */
  lemma {:induction false} SourceOrderPartition(urls: seq<string>, exchanges: seq<Exchange>)
    requires |exchanges| == |urls|
    ensures SuccessContents(Outcomes(urls, exchanges)) == DownloadedBodies(urls, exchanges)
    ensures FailedUrls(Outcomes(urls, exchanges)) == FailedSources(urls, exchanges)
  {
    if |urls| > 0 {
      assert Outcomes(urls, exchanges)[1..] == Outcomes(urls[1..], exchanges[1..]);
      SourceOrderPartition(urls[1..], exchanges[1..]);
    }
  }

  /** Every downloaded body is non-empty, and there is one exactly when some exchange passes. */
  lemma {:induction false} DownloadedBodiesShape(urls: seq<string>, exchanges: seq<Exchange>)
    requires |exchanges| == |urls|
    ensures forall k | 0 <= k < |DownloadedBodies(urls, exchanges)| :: |DownloadedBodies(urls, exchanges)[k]| > 0
    ensures DownloadedBodies(urls, exchanges) != [] <==> exists i | 0 <= i < |urls| :: AllStagesPass(exchanges[i])
  {
    if |urls| > 0 {
      DownloadedBodiesShape(urls[1..], exchanges[1..]);
      StagesInOrder(exchanges[0]);
      assert forall i | 1 <= i < |urls| :: exchanges[1..][i - 1] == exchanges[i];
    }
  }

  /**
   Whatever the arrival order: the counts add up to the number of sources, the
   failed URLs are exactly (with multiplicity) the sources whose download
   failed, the successful contents are exactly the bodies downloaded, each
   non-empty, and the run is merged exactly when some download succeeded.
   */
  lemma RunAccounts(urls: seq<string>, exchanges: seq<Exchange>, arrival: seq<DownloadResult>)
    requires IsArrivalOrder(urls, exchanges, arrival)
    ensures Aggregate(|urls|, arrival).summary.success + Aggregate(|urls|, arrival).summary.failed == |urls|
    ensures multiset(FailedUrls(arrival)) == multiset(FailedSources(urls, exchanges))
    ensures multiset(SuccessContents(arrival)) == multiset(DownloadedBodies(urls, exchanges))
    ensures forall k | 0 <= k < |SuccessContents(arrival)| :: |SuccessContents(arrival)[k]| > 0
    ensures Aggregate(|urls|, arrival).Merged? <==> exists i | 0 <= i < |urls| :: AllStagesPass(exchanges[i])
  {
    var outcomes := Outcomes(urls, exchanges);
    assert |arrival| == |multiset(arrival)| == |multiset(outcomes)| == |urls|;
    PartitionPermutation(arrival, outcomes);
    SourceOrderPartition(urls, exchanges);
    DownloadedBodiesShape(urls, exchanges);
    var got, bodies := SuccessContents(arrival), DownloadedBodies(urls, exchanges);
    forall k | 0 <= k < |got| ensures |got[k]| > 0 {
      assert got[k] in multiset(bodies);
    }
    assert got == [] <==> bodies == [] by {
      assert |got| == |multiset(got)| == |multiset(bodies)| == |bodies|;
    }
  }

  /** Two arrival orders of the same downloads give the same summary and the same abort decision. */
  lemma SummaryIgnoresArrival(urls: seq<string>, exchanges: seq<Exchange>, a1: seq<DownloadResult>, a2: seq<DownloadResult>)
    requires IsArrivalOrder(urls, exchanges, a1) && IsArrivalOrder(urls, exchanges, a2)
    ensures Aggregate(|urls|, a1).summary == Aggregate(|urls|, a2).summary
    ensures Aggregate(|urls|, a1).Merged? == Aggregate(|urls|, a2).Merged?
  {
    PartitionPermutation(a1, a2);
    assert |SuccessContents(a1)| == |multiset(SuccessContents(a1))| == |multiset(SuccessContents(a2))| == |SuccessContents(a2)|;
    assert |FailedUrls(a1)| == |multiset(FailedUrls(a1))| == |multiset(FailedUrls(a2))| == |FailedUrls(a2)|;
  }

  /** When the results happen to arrive in source order, the merge is in source order. */
  lemma SourceOrderArrival(urls: seq<string>, exchanges: seq<Exchange>)
    requires |exchanges| == |urls|
    requires exists i | 0 <= i < |urls| :: AllStagesPass(exchanges[i])
    ensures Aggregate(|urls|, Outcomes(urls, exchanges)) == Merged(
      Summary(|urls|, |DownloadedBodies(urls, exchanges)|, |FailedSources(urls, exchanges)|),
      Join(DownloadedBodies(urls, exchanges), '\n'))
  {
    SourceOrderPartition(urls, exchanges);
    DownloadedBodiesShape(urls, exchanges);
  }

  /**
   The merge follows arrival order, not source order: two successful results
   with different single-line contents merge differently in the two orders
   in which they can arrive.
   */
  lemma MergeFollowsArrival(n: nat, x: DownloadResult, y: DownloadResult)
    requires x.Succeeded() && y.Succeeded()
    requires x.content != y.content && '\n' !in x.content && '\n' !in y.content
    ensures multiset([x, y]) == multiset([y, x])
    ensures Aggregate(n, [x, y]).Merged? && Aggregate(n, [y, x]).Merged?
    ensures Aggregate(n, [x, y]).content != Aggregate(n, [y, x]).content
  {
    var c1 := MergedPair(n, x, y);
    var c2 := MergedPair(n, y, x);
    assert Split(c1, '\n')[0] != Split(c2, '\n')[0];
    PairSwap(x, y);
  }

  lemma PairSwap<T>(x: T, y: T)
    ensures multiset([x, y]) == multiset([y, x])
  {
    assert multiset([x, y]) == multiset{x} + multiset{y} == multiset([y, x]);
  }

  /** Two successful one-line results that arrive in the given order merge into their contents in that order. */
  lemma MergedPair(n: nat, x: DownloadResult, y: DownloadResult) returns (c: string)
    requires x.Succeeded() && y.Succeeded()
    requires '\n' !in x.content && '\n' !in y.content
    ensures Aggregate(n, [x, y]).Merged? && Aggregate(n, [x, y]).content == c
    ensures Split(c, '\n') == [x.content, y.content]
  {
    PairContents(x, y);
    MergedSplitsBack(n, [x, y]);
    c := Aggregate(n, [x, y]).content;
  }

  lemma PairContents(x: DownloadResult, y: DownloadResult)
    requires x.Succeeded() && y.Succeeded()
    ensures SuccessContents([x, y]) == [x.content, y.content]
  {
    assert [y][1..] == [];
    assert SuccessContents([y]) == [y.content] + SuccessContents([]);
    assert [x, y][1..] == [y];
    assert SuccessContents([x, y]) == [x.content] + SuccessContents([y]);
  }

}
