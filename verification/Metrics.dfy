/**
 * The metrics helper: samples of one target are merged into the current data points, and post-processing turns running
 * totals into the changes since the previous poll, in place. The series functions say what a consumer of the published
 * values can rebuild from them.
 */
module Metrics {
  import opened Types

  // ----- Series of running totals -----

  /** What is published for a running total: its change, or the total itself when it went backwards (a restart). */
  function Delta(total: real, last: real): real {
    if total < last then total else total - last
  }

  function Latest(totals: seq<real>): real {
    if totals == [] then 0.0 else totals[|totals| - 1]
  }

  /** Sum of everything published over a series of polls. */
  function Published(totals: seq<real>): real {
    if totals == [] then 0.0
    else
      var before := totals[..|totals| - 1];
      Published(before) + Delta(Latest(totals), Latest(before))
  }

  predicate ResetAt(totals: seq<real>, k: nat)
    requires k < |totals|
  {
    totals[k] < Latest(totals[..k])
  }

  predicate ResetFree(totals: seq<real>) {
    forall k | 0 <= k < |totals| :: !ResetAt(totals, k)
  }

  /** Sum of the totals that were reached before each restart. */
  function BeforeResets(totals: seq<real>): real {
    if totals == [] then 0.0
    else
      var before := totals[..|totals| - 1];
      BeforeResets(before) + if totals[|totals| - 1] < Latest(before) then Latest(before) else 0.0
  }

  /** The published values telescope: they add up to the latest total plus what each restart wiped out. */
  lemma {:induction false} PublishedTelescopes(totals: seq<real>)
    ensures Published(totals) == Latest(totals) + BeforeResets(totals)
  {
    if totals != [] {
      PublishedTelescopes(totals[..|totals| - 1]);
    }
  }

  lemma {:induction false} BeforeResetsIff(totals: seq<real>)
    requires forall k | 0 <= k < |totals| :: totals[k] >= 0.0
    ensures BeforeResets(totals) >= 0.0
    ensures BeforeResets(totals) == 0.0 <==> ResetFree(totals)
  {
    if totals != [] {
      var n := |totals| - 1;
      var before := totals[..n];
      BeforeResetsIff(before);
      forall k | 0 <= k < n
        ensures ResetAt(before, k) <==> ResetAt(totals, k)
      {
        assert before[..k] == totals[..k];
      }
      assert ResetAt(totals, n) <==> totals[n] < Latest(before);
    }
  }

  /** For totals that count something, the published values add up to the latest total exactly in reset-free runs. */
  lemma PublishedIsLatestIff(totals: seq<real>)
    requires forall k | 0 <= k < |totals| :: totals[k] >= 0.0
    ensures Published(totals) == Latest(totals) <==> ResetFree(totals)
  {
    PublishedTelescopes(totals);
    BeforeResetsIff(totals);
  }

  // ----- Histograms -----

  /** Observations per bucket, from the counts at or below each bound. */
  function PerBucket(c: seq<real>): seq<real> {
    seq(|c|, i requires 0 <= i < |c| => if i == 0 then c[0] else c[i] - c[i - 1])
  }

  /** There is no last poll, or it saw at least as many buckets; otherwise its points are indexed out of range. */
  predicate Fits(last: seq<real>, c: seq<real>) {
    last == [] || |c| <= |last|
  }

  /** A histogram that has gained a bucket since the last poll does not. */
  lemma MoreBucketsDoNotFit(last: seq<real>, bucket: real)
    requires last != []
    ensures !Fits(last, last + [bucket])
  {
  }

  /** The last per-bucket counts after a poll; those of buckets that the poll did not see stay. */
  function NextLast(last: seq<real>, c: seq<real>): seq<real> {
    if last == [] || !Fits(last, c) then PerBucket(c) else PerBucket(c) + last[|c|..]
  }

  /** The per-bucket values published by a poll. */
  function Deltas(last: seq<real>, c: seq<real>): seq<real>
    requires Fits(last, c)
  {
    seq(|c|, i requires 0 <= i < |c| => Delta(PerBucket(c)[i], if last == [] then 0.0 else last[i]))
  }

  predicate Decreases(last: seq<real>, c: seq<real>)
    requires Fits(last, c)
  {
    DecreasesFrom(last, c, 0)
  }

  /** Some bucket from `k` up went backwards. */
  predicate DecreasesFrom(last: seq<real>, c: seq<real>, k: nat)
    requires Fits(last, c)
  {
    last != [] && exists i | k <= i < |c| :: PerBucket(c)[i] < last[i]
  }

  /** A run of polls that all see the same buckets, or none. */
  predicate Layout(polls: seq<seq<real>>, buckets: nat) {
    forall k | 0 <= k < |polls| :: polls[k] == [] || |polls[k]| == buckets
  }

  function LastOf(polls: seq<seq<real>>): seq<real> {
    if polls == [] then [] else NextLast(LastOf(polls[..|polls| - 1]), polls[|polls| - 1])
  }

  /** With a fixed layout the last counts are simply those of the latest poll that saw buckets. */
  lemma NextLastFixed(last: seq<real>, c: seq<real>)
    requires last == [] || c == [] || |last| == |c|
    ensures NextLast(last, c) == if c == [] then last else PerBucket(c)
  {
    if c == [] {
      assert last != [] ==> PerBucket(c) + last[0..] == last;
    } else {
      assert last != [] ==> PerBucket(c) + last[|c|..] == PerBucket(c);
    }
  }

  lemma {:induction false} LastOfLayout(polls: seq<seq<real>>, buckets: nat)
    requires Layout(polls, buckets)
    ensures LastOf(polls) == [] || |LastOf(polls)| == buckets
  {
    if polls != [] {
      LastOfLayout(polls[..|polls| - 1], buckets);
      NextLastFixed(LastOf(polls[..|polls| - 1]), polls[|polls| - 1]);
    }
  }

  /** Sum of what a run of polls published for bucket `i`. */
  ghost function PublishedFor(polls: seq<seq<real>>, buckets: nat, i: nat): real
    requires Layout(polls, buckets) && i < buckets
  {
    if polls == [] then 0.0
    else
      var before, c := polls[..|polls| - 1], polls[|polls| - 1];
      LastOfLayout(before, buckets);
      PublishedFor(before, buckets, i) + if c == [] then 0.0 else Deltas(LastOf(before), c)[i]
  }

  /** The running totals of bucket `i`, one for every poll that saw buckets. */
  function TotalsOf(polls: seq<seq<real>>, buckets: nat, i: nat): seq<real>
    requires Layout(polls, buckets) && i < buckets
  {
    if polls == [] then []
    else
      var before, c := polls[..|polls| - 1], polls[|polls| - 1];
      TotalsOf(before, buckets, i) + if c == [] then [] else [PerBucket(c)[i]]
  }

  lemma {:induction false} LastIsLatest(polls: seq<seq<real>>, buckets: nat, i: nat)
    requires Layout(polls, buckets) && i < buckets
    ensures LastOf(polls) == [] <==> TotalsOf(polls, buckets, i) == []
    ensures LastOf(polls) != [] ==> |LastOf(polls)| == buckets && LastOf(polls)[i] == Latest(TotalsOf(polls, buckets, i))
  {
    if polls != [] {
      LastIsLatest(polls[..|polls| - 1], buckets, i);
      NextLastFixed(LastOf(polls[..|polls| - 1]), polls[|polls| - 1]);
    }
  }

  lemma {:induction false} BucketIsSeries(polls: seq<seq<real>>, buckets: nat, i: nat)
    requires Layout(polls, buckets) && i < buckets
    ensures PublishedFor(polls, buckets, i) == Published(TotalsOf(polls, buckets, i))
  {
    if polls != [] {
      var before, c := polls[..|polls| - 1], polls[|polls| - 1];
      BucketIsSeries(before, buckets, i);
      LastIsLatest(before, buckets, i);
      var totals := TotalsOf(polls, buckets, i);
      if c == [] {
        assert totals == TotalsOf(before, buckets, i);
      } else {
        assert totals[..|totals| - 1] == TotalsOf(before, buckets, i);
      }
    }
  }

  /** Cumulative counts: none negative, and none below the one before it. */
  predicate Cumulative(c: seq<real>) {
    (forall i | 0 <= i < |c| :: c[i] >= 0.0) && forall i | 1 <= i < |c| :: c[i - 1] <= c[i]
  }

  lemma {:induction false} TotalsNonNegative(polls: seq<seq<real>>, buckets: nat, i: nat)
    requires Layout(polls, buckets) && i < buckets && forall k | 0 <= k < |polls| :: Cumulative(polls[k])
    ensures forall k | 0 <= k < |TotalsOf(polls, buckets, i)| :: TotalsOf(polls, buckets, i)[k] >= 0.0
  {
    if polls != [] {
      TotalsNonNegative(polls[..|polls| - 1], buckets, i);
    }
  }

  /**
   * Over any run of polls with a fixed layout, including polls that saw nothing, what was published for a bucket adds
   * up to its latest per-bucket count exactly when that count never went backwards.
   */
  lemma HistogramTelescopes(polls: seq<seq<real>>, buckets: nat, i: nat)
    requires Layout(polls, buckets) && i < buckets && forall k | 0 <= k < |polls| :: Cumulative(polls[k])
    requires LastOf(polls) != []
    ensures |LastOf(polls)| == buckets
    ensures PublishedFor(polls, buckets, i) == LastOf(polls)[i] <==> ResetFree(TotalsOf(polls, buckets, i))
  {
    LastIsLatest(polls, buckets, i);
    BucketIsSeries(polls, buckets, i);
    TotalsNonNegative(polls, buckets, i);
    PublishedIsLatestIff(TotalsOf(polls, buckets, i));
  }

  function Total(s: seq<real>): real {
    if s == [] then 0.0 else Total(s[..|s| - 1]) + s[|s| - 1]
  }

  /** De-cumulation loses nothing: the buckets add up to the count at the largest bound. */
  lemma {:induction false} PerBucketTotal(c: seq<real>)
    ensures Total(PerBucket(c)) == Latest(c)
  {
    if c != [] {
      var n := |c| - 1;
      PerBucketTotal(c[..n]);
      assert PerBucket(c)[..n] == PerBucket(c[..n]);
    }
  }

  /** And so do the buckets up to any bound: they add up to the cumulative count there. */
  lemma PerBucketPrefix(c: seq<real>, i: nat)
    requires i < |c|
    ensures Total(PerBucket(c)[..i + 1]) == c[i]
  {
    PerBucketTotal(c[..i + 1]);
    assert PerBucket(c)[..i + 1] == PerBucket(c[..i + 1]);
  }

  // ----- In terms of the polls alone -----

  /** The counts of the latest poll that saw buckets. */
  function LatestPoll(polls: seq<seq<real>>): seq<real> {
    if polls == [] then []
    else if polls[|polls| - 1] != [] then polls[|polls| - 1]
    else LatestPoll(polls[..|polls| - 1])
  }

  /** The observations in one bucket alone. */
  function InBucket(c: seq<real>, j: nat): real
    requires j < |c|
  {
    if j == 0 then c[0] else c[j] - c[j - 1]
  }

  lemma {:induction false} LatestPollLayout(polls: seq<seq<real>>, buckets: nat)
    requires Layout(polls, buckets)
    ensures LatestPoll(polls) == [] || |LatestPoll(polls)| == buckets
    ensures LastOf(polls) == if LatestPoll(polls) == [] then [] else PerBucket(LatestPoll(polls))
  {
    if polls != [] {
      LatestPollLayout(polls[..|polls| - 1], buckets);
      NextLastFixed(LastOf(polls[..|polls| - 1]), polls[|polls| - 1]);
    }
  }

  /** Some bucket holds fewer observations than at the latest poll before. */
  ghost predicate WentBack(polls: seq<seq<real>>, c: seq<real>) {
    exists j :: 0 <= j < |c| && j < |LatestPoll(polls)| && InBucket(c, j) < InBucket(LatestPoll(polls), j)
  }

  /** What a poll answers about resets, in terms of the counts alone. */
  lemma ResetSeenIff(polls: seq<seq<real>>, buckets: nat, c: seq<real>)
    requires Layout(polls, buckets) && (c == [] || |c| == buckets)
    ensures Fits(LastOf(polls), c)
    ensures Decreases(LastOf(polls), c) <==> WentBack(polls, c)
  {
    LatestPollLayout(polls, buckets);
    var p := LatestPoll(polls);
    if WentBack(polls, c) {
      var j :| 0 <= j < |c| && j < |p| && InBucket(c, j) < InBucket(p, j);
      PerBucketIs(c, j);
      PerBucketIs(p, j);
      assert PerBucket(c)[j] < LastOf(polls)[j];
    }
    if Decreases(LastOf(polls), c) {
      var j :| 0 <= j < |c| && PerBucket(c)[j] < LastOf(polls)[j];
      PerBucketIs(c, j);
      PerBucketIs(p, j);
      assert InBucket(c, j) < InBucket(p, j);
    }
  }

  lemma PerBucketIs(c: seq<real>, j: nat)
    requires j < |c|
    ensures PerBucket(c)[j] == InBucket(c, j)
  {
  }

  /** No poll of the run answers that something went backwards. */
  ghost predicate NoReset(polls: seq<seq<real>>) {
    forall k | 0 <= k < |polls| :: !WentBack(polls[..k], polls[k])
  }

  lemma {:induction false} TotalsResetFree(polls: seq<seq<real>>, buckets: nat, i: nat)
    requires Layout(polls, buckets) && i < buckets && NoReset(polls) && forall k | 0 <= k < |polls| :: Cumulative(polls[k])
    ensures ResetFree(TotalsOf(polls, buckets, i))
  {
    if polls != [] {
      var n := |polls| - 1;
      var before, c := polls[..n], polls[n];
      assert forall k | 0 <= k < n :: before[..k] == polls[..k];
      TotalsResetFree(before, buckets, i);
      if c != [] {
        NotLower(before, buckets, i, c);
        ResetFreeSnoc(TotalsOf(before, buckets, i), PerBucket(c)[i]);
      } else {
        assert TotalsOf(polls, buckets, i) == TotalsOf(before, buckets, i);
      }
    }
  }

  lemma NotLower(polls: seq<seq<real>>, buckets: nat, i: nat, c: seq<real>)
    requires Layout(polls, buckets) && i < buckets == |c| && Cumulative(c) && !WentBack(polls, c)
    ensures PerBucket(c)[i] >= Latest(TotalsOf(polls, buckets, i))
  {
    LatestPollLayout(polls, buckets);
    LastIsLatest(polls, buckets, i);
    var p := LatestPoll(polls);
    if p != [] {
      assert InBucket(c, i) >= InBucket(p, i);
      assert PerBucket(p)[i] == InBucket(p, i);
    }
    assert PerBucket(c)[i] == InBucket(c, i);
  }

  lemma ResetFreeSnoc(totals: seq<real>, x: real)
    requires ResetFree(totals) && x >= Latest(totals)
    ensures ResetFree(totals + [x])
  {
    var all := totals + [x];
    forall k | 0 <= k < |all|
      ensures !ResetAt(all, k)
    {
      if k < |totals| {
        assert all[..k] == totals[..k] && !ResetAt(totals, k);
      } else {
        assert all[..k] == totals;
      }
    }
  }

  /** Sum of what a run of polls published for the buckets up to `i`. */
  ghost function PublishedUpTo(polls: seq<seq<real>>, buckets: nat, i: nat): real
    requires Layout(polls, buckets) && i < buckets
  {
    PublishedFor(polls, buckets, i) + if i == 0 then 0.0 else PublishedUpTo(polls, buckets, i - 1)
  }

  /**
   * Over any run of polls with a fixed layout and without a reset, what was published for all buckets up to a bound adds
   * up to the cumulative count at that bound in the latest poll that saw buckets.
   */
  lemma {:induction false} CumulativeTelescopes(polls: seq<seq<real>>, buckets: nat, i: nat)
    requires Layout(polls, buckets) && i < buckets && NoReset(polls) && forall k | 0 <= k < |polls| :: Cumulative(polls[k])
    requires LatestPoll(polls) != []
    ensures |LatestPoll(polls)| == buckets && PublishedUpTo(polls, buckets, i) == LatestPoll(polls)[i]
  {
    LatestPollLayout(polls, buckets);
    var p := LatestPoll(polls);
    TotalsResetFree(polls, buckets, i);
    HistogramTelescopes(polls, buckets, i);
    PerBucketPrefix(p, i);
    if i > 0 {
      CumulativeTelescopes(polls, buckets, i - 1);
    }
    assert PerBucket(p)[i] == InBucket(p, i);
  }

  // ----- Merging samples -----

  datatype Bound = Finite(value: real) | Infinite

  datatype Bucket = Bucket(upperBound: Bound, count: real)

  /** How a sample is combined with what is there: addition or maximum in the configured metrics. */
  type Action = (real, real) -> real

  function IndexOf(cur: seq<Bucket>, u: Bound): (i: nat)
    ensures i <= |cur| && (i < |cur| ==> cur[i].upperBound == u)
    ensures forall j | 0 <= j < i :: cur[j].upperBound != u
  {
    if cur == [] || cur[0].upperBound == u then 0 else 1 + IndexOf(cur[1..], u)
  }

  function MergeOne(cur: seq<Bucket>, b: Bucket, f: Action): seq<Bucket> {
    var i := IndexOf(cur, b.upperBound);
    if i < |cur| then cur[i := cur[i].(count := f(cur[i].count, b.count))] else cur + [b]
  }

  function Merge(cur: seq<Bucket>, h: seq<Bucket>, f: Action): seq<Bucket> {
    if h == [] then cur else MergeOne(Merge(cur, h[..|h| - 1], f), h[|h| - 1], f)
  }

  lemma MergeNext(cur: seq<Bucket>, h: seq<Bucket>, k: nat, f: Action)
    requires k < |h|
    ensures Merge(cur, h[..k + 1], f) == MergeOne(Merge(cur, h[..k], f), h[k], f)
  {
    assert h[..k + 1][..k] == h[..k];
  }

  /** All samples of a family, one after the other, merged into no points at all. */
  function MergeAll(samples: seq<seq<Bucket>>, f: Action): seq<Bucket> {
    if samples == [] then [] else Merge(MergeAll(samples[..|samples| - 1], f), samples[|samples| - 1], f)
  }

  function CountsOf(cur: seq<Bucket>): seq<real> {
    seq(|cur|, i requires 0 <= i < |cur| => cur[i].count)
  }

  predicate DistinctBounds(cur: seq<Bucket>) {
    forall i, j | 0 <= i < j < |cur| :: cur[i].upperBound != cur[j].upperBound
  }

  function CountAt(cur: seq<Bucket>, u: Bound): Option<real> {
    var i := IndexOf(cur, u);
    if i < |cur| then Some(cur[i].count) else None
  }

  /** The samples at one bound, combined in order, starting from what was there. */
  function FoldAt(start: Option<real>, h: seq<Bucket>, u: Bound, f: Action): Option<real> {
    if h == [] then start
    else
      var before, b := FoldAt(start, h[..|h| - 1], u, f), h[|h| - 1];
      if b.upperBound != u then before
      else if before.None? then Some(b.count)
      else Some(f(before.value, b.count))
  }

  lemma IndexUnique(cur: seq<Bucket>, u: Bound, i: nat)
    requires DistinctBounds(cur) && i < |cur| && cur[i].upperBound == u
    ensures IndexOf(cur, u) == i
  {
  }

  lemma MergeOneAt(cur: seq<Bucket>, b: Bucket, f: Action, u: Bound)
    requires DistinctBounds(cur)
    ensures DistinctBounds(MergeOne(cur, b, f))
    ensures CountAt(MergeOne(cur, b, f), u) ==
            if b.upperBound != u then CountAt(cur, u)
            else if CountAt(cur, u).None? then Some(b.count)
            else Some(f(CountAt(cur, u).value, b.count))
  {
    var r, i, j := MergeOne(cur, b, f), IndexOf(cur, b.upperBound), IndexOf(cur, u);
    assert DistinctBounds(r);
    if j < |cur| {
      IndexUnique(r, u, j);
    } else if b.upperBound == u {
      IndexUnique(r, u, |cur|);
    } else {
      assert forall m | 0 <= m < |r| :: r[m].upperBound != u;
    }
  }

  /** Merging combines, bound by bound, exactly the samples at that bound, and never splits a bucket in two. */
  lemma {:induction false} MergeAt(cur: seq<Bucket>, h: seq<Bucket>, f: Action, u: Bound)
    requires DistinctBounds(cur)
    ensures DistinctBounds(Merge(cur, h, f))
    ensures CountAt(Merge(cur, h, f), u) == FoldAt(CountAt(cur, u), h, u, f)
  {
    if h != [] {
      MergeAt(cur, h[..|h| - 1], f, u);
      MergeOneAt(Merge(cur, h[..|h| - 1], f), h[|h| - 1], f, u);
    }
  }

  /** One sample of one target, merged into nothing, is taken over bucket by bucket in its own order. */
  lemma {:induction false} MergeFresh(h: seq<Bucket>, f: Action)
    requires DistinctBounds(h)
    ensures Merge([], h, f) == h
  {
    if h != [] {
      var n := |h| - 1;
      MergeFresh(h[..n], f);
      FirstMatch(h[..n], h[n].upperBound, n);
      assert h[..n] + [h[n]] == h;
    }
  }

  // ----- The data points themselves -----

  class BucketPoint {
    const upperBound: Bound
    var count: real

    constructor (upperBound: Bound, count: real)
      ensures this.upperBound == upperBound && this.count == count
    {
      this.upperBound := upperBound;
      this.count := count;
    }
  }

  ghost function Counts(bs: seq<BucketPoint>): seq<real>
    reads bs
  {
    seq(|bs|, i requires 0 <= i < |bs| reads bs => bs[i].count)
  }

  ghost function Values(bs: seq<BucketPoint>): seq<Bucket>
    reads bs
  {
    seq(|bs|, i requires 0 <= i < |bs| reads bs => Bucket(bs[i].upperBound, bs[i].count))
  }

  predicate Distinct<T(==)>(s: seq<T>) {
    forall i, j | 0 <= i < j < |s| :: s[i] != s[j]
  }

  predicate Apart(s: seq<BucketPoint>, t: seq<BucketPoint>) {
    forall i, j | 0 <= i < |s| && 0 <= j < |t| :: s[i] != t[j]
  }

  /** The points of an action and what they hold. */
  datatype Snapshot = Snapshot(cur: seq<BucketPoint>, last: seq<BucketPoint>, counts: seq<real>, lastCounts: seq<real>)

  /** The current points are not those of the last poll. */
  ghost predicate ReadyToProcess(s: Snapshot) {
    && Distinct(s.cur) && Distinct(s.last) && Apart(s.cur, s.last)
    && |s.counts| == |s.cur| && |s.lastCounts| == |s.last|
  }

  /** The current points now hold the changes, the last ones the totals; on the first poll they are the same points. */
  ghost function Processed(s: Snapshot): Snapshot
    requires ReadyToProcess(s) && Fits(s.lastCounts, s.counts)
  {
    var changes := Deltas(s.lastCounts, s.counts);
    if s.last == [] then Snapshot(s.cur, s.cur, changes, changes)
    else Snapshot(s.cur, s.last, changes, NextLast(s.lastCounts, s.counts))
  }

  /** Even when the current points become the last ones, the last ones end up holding the per-bucket totals. */
  lemma ProcessedTotals(s: Snapshot)
    requires ReadyToProcess(s) && Fits(s.lastCounts, s.counts)
    ensures Processed(s).lastCounts == NextLast(s.lastCounts, s.counts)
  {
    assert s.last == [] ==> Deltas([], s.counts) == PerBucket(s.counts);
  }

  ghost predicate GoesBack(s: Snapshot) {
    Fits(s.lastCounts, s.counts) && Decreases(s.lastCounts, s.counts)
  }

  /** Post-processing ends by telling whether something went backwards, or crashes on an index out of range. */
  datatype PostResult = Compared(reset: bool) | Panicked

  /** An empty `lastBucket` stands for the nil slice: it is only ever set to a slice that has buckets. */
  class BucketPoints {
    var lastBucket: seq<BucketPoint>
    var curBucket: seq<BucketPoint>

    constructor ()
      ensures lastBucket == [] && curBucket == []
    {
      lastBucket, curBucket := [], [];
    }

    ghost predicate Valid()
      reads this
    {
      Distinct(curBucket) && Distinct(lastBucket)
    }

    ghost function Snap(): Snapshot
      reads this, curBucket, lastBucket
    {
      Snapshot(curBucket, lastBucket, Counts(curBucket), Counts(lastBucket))
    }

    ghost predicate Ready()
      reads this, curBucket, lastBucket
    {
      ReadyToProcess(Snap())
    }

    /** Resetting drops the current points, so the points of the first poll, shared until then, are no longer shared. */
    method ResetMetrics()
      requires Valid()
      modifies this`curBucket
      ensures Ready() && curBucket == []
    {
      curBucket := [];
    }

    /** Merges one histogram sample into the current points. */
    method ProcessHistogram(histogram: seq<Bucket>, f: Action)
      requires Valid() && Apart(curBucket, lastBucket)
      modifies this`curBucket, curBucket
      ensures Valid() && Apart(curBucket, lastBucket)
      ensures Values(curBucket) == Merge(old(Values(curBucket)), histogram, f)
      ensures |curBucket| >= |old(curBucket)| && curBucket[..|old(curBucket)|] == old(curBucket)
      ensures forall m | |old(curBucket)| <= m < |curBucket| :: fresh(curBucket[m])
    {
      ghost var cur0, n := Values(curBucket), |curBucket|;
      for k := 0 to |histogram|
        invariant Valid() && Apart(curBucket, lastBucket)
        invariant |curBucket| >= n && curBucket[..n] == old(curBucket)
        invariant forall m | n <= m < |curBucket| :: fresh(curBucket[m])
        invariant Values(curBucket) == Merge(cur0, histogram[..k], f)
      {
        MergeNext(cur0, histogram, k, f);
        MergeBucket(histogram[k], f);
      }
      assert histogram[..|histogram|] == histogram;
    }

    /** Merges one bucket: into the first point with its bound, or as a new point at the end. */
    method MergeBucket(bucket: Bucket, f: Action)
      requires Valid() && Apart(curBucket, lastBucket)
      modifies this`curBucket, curBucket
      ensures Valid() && Apart(curBucket, lastBucket)
      ensures Values(curBucket) == MergeOne(old(Values(curBucket)), bucket, f)
      ensures |curBucket| >= |old(curBucket)| && curBucket[..|old(curBucket)|] == old(curBucket)
      ensures forall m | |old(curBucket)| <= m < |curBucket| :: fresh(curBucket[m])
    {
      var i := 0;
      while i < |curBucket| && bucket.upperBound != curBucket[i].upperBound
        invariant 0 <= i <= |curBucket|
        invariant forall m | 0 <= m < i :: curBucket[m].upperBound != bucket.upperBound
      {
        i := i + 1;
      }
      FirstMatch(Values(curBucket), bucket.upperBound, i);
      if i < |curBucket| {
        curBucket[i].count := f(curBucket[i].count, bucket.count);
      } else {
        var p := new BucketPoint(bucket.upperBound, bucket.count);
        curBucket := curBucket + [p];
      }
    }

    /** One action's share of post-processing; on the first poll the points themselves become the last ones. */
    method PostProcess() returns (r: PostResult)
      requires Ready()
      modifies this`lastBucket, curBucket, lastBucket
      ensures r.Panicked? <==> !Fits(old(Counts(lastBucket)), old(Counts(curBucket)))
      ensures r.Compared? ==> Snap() == Processed(old(Snap())) && (r.reset <==> GoesBack(old(Snap())))
    {
      ghost var c, last := Counts(curBucket), Counts(lastBucket);
      if curBucket == [] {
        assert last != [] ==> PerBucket(c) + last[|c|..] == last;
        return Compared(false);
      }
      if lastBucket != [] && |lastBucket| < |curBucket| {
        return Panicked;
      }
      var reset := TakeDeltas(c, last);
      DoneCounts(this, c, last);
      r := Compared(reset);
      if lastBucket == [] {
        lastBucket := curBucket;
      }
    }

    /**
     * From the largest bucket down, each count loses the cumulative count of the bucket below it and then the last
     * value, which is replaced.
     */
    method TakeDeltas(ghost c: seq<real>, ghost last: seq<real>) returns (resetDetected: bool)
      requires Ready() && curBucket != [] && c == Counts(curBucket) && last == Counts(lastBucket) && Fits(last, c)
      modifies curBucket, lastBucket
      ensures Done(c, last, 0)
      ensures resetDetected <==> Decreases(last, c)
    {
      resetDetected := false;
      var k := |curBucket|;
      while k > 1
        invariant 1 <= k <= |curBucket| && Done(c, last, k)
        invariant resetDetected <==> DecreasesFrom(last, c, k)
      {
        k := k - 1;
        var reset := ProcessBucket(k, c, last);
        resetDetected := resetDetected || reset;
      }
      var reset := ProcessBucket(0, c, last);
      resetDetected := resetDetected || reset;
    }

    /** A poll of one target: the points start afresh, take in every sample of the family, and are post-processed. */
    method Poll(samples: seq<seq<Bucket>>, f: Action) returns (r: PostResult)
      requires Valid()
      modifies this, lastBucket
      ensures var last, c := old(Counts(lastBucket)), CountsOf(MergeAll(samples, f));
              && (r.Panicked? <==> !Fits(last, c))
              && (r.Compared? ==>
                    && Valid() && Counts(curBucket) == Deltas(last, c) && Counts(lastBucket) == NextLast(last, c)
                    && (r.reset <==> Decreases(last, c)))
    {
      ResetMetrics();
      for k := 0 to |samples|
        invariant Valid() && Apart(curBucket, lastBucket) && lastBucket == old(lastBucket)
        invariant Counts(lastBucket) == old(Counts(lastBucket))
        invariant forall m | 0 <= m < |curBucket| :: fresh(curBucket[m])
        invariant Values(curBucket) == MergeAll(samples[..k], f)
      {
        assert samples[..k + 1][..k] == samples[..k];
        ProcessHistogram(samples[k], f);
      }
      assert samples[..|samples|] == samples;
      assert Counts(curBucket) == CountsOf(Values(curBucket));
      ghost var ready := Snap();
      r := PostProcess();
      if r.Compared? {
        ProcessedTotals(ready);
      }
    }

    /** The buckets from `k` up have been processed, those below still hold what the poll found. */
    ghost predicate Done(c: seq<real>, last: seq<real>, k: nat)
      requires Fits(last, c)
      reads this, curBucket, lastBucket
    {
      && |curBucket| == |c| && |lastBucket| == |last|
      && (forall j | 0 <= j < |c| :: curBucket[j].count == if j < k then c[j] else Deltas(last, c)[j])
      && (last != [] ==>
            forall j | 0 <= j < |last| :: lastBucket[j].count == if k <= j < |c| then PerBucket(c)[j] else last[j])
    }

    /** One bucket: off comes the cumulative count of the bucket below, then the last value. */
    method ProcessBucket(k: nat, ghost c: seq<real>, ghost last: seq<real>) returns (reset: bool)
      requires Ready() && Fits(last, c) && k < |c| && Done(c, last, k + 1)
      modifies curBucket, lastBucket
      ensures Done(c, last, k)
      ensures reset <==> last != [] && PerBucket(c)[k] < last[k]
    {
      reset := false;
      if k > 0 {
        curBucket[k].count := curBucket[k].count - curBucket[k - 1].count;
      }
      if lastBucket != [] {
        reset := Rebase(curBucket[k], lastBucket[k]);
      }
    }
  }

  /** Once every bucket has been processed. */
  lemma DoneCounts(b: BucketPoints, c: seq<real>, last: seq<real>)
    requires Fits(last, c) && b.Done(c, last, 0)
    ensures Counts(b.curBucket) == Deltas(last, c)
    ensures last != [] ==> Counts(b.lastBucket) == PerBucket(c) + last[|c|..]
  {
  }

  lemma FirstMatch(cur: seq<Bucket>, u: Bound, i: nat)
    requires i <= |cur| && (i < |cur| ==> cur[i].upperBound == u) && forall j | 0 <= j < i :: cur[j].upperBound != u
    ensures IndexOf(cur, u) == i
  {
  }

  /** Takes the last value off the current one unless it went backwards, and remembers the current one. */
  method Rebase(cur: BucketPoint, last: BucketPoint) returns (reset: bool)
    requires cur != last
    modifies cur`count, last`count
    ensures cur.count == Delta(old(cur.count), old(last.count)) && last.count == old(cur.count)
    ensures reset <==> old(cur.count) < old(last.count)
  {
    var currentTotal := cur.count;
    reset := cur.count < last.count;
    if !reset {
      cur.count := cur.count - last.count;
    }
    last.count := currentTotal;
  }

  predicate Disjoint(s: Snapshot, t: Snapshot) {
    Apart(s.cur, t.cur) && Apart(s.cur, t.last) && Apart(s.last, t.cur) && Apart(s.last, t.last)
  }

  /** Distinct actions that share no point, each ready to be processed. */
  ghost predicate AllReady(actions: seq<BucketPoints>, before: seq<Snapshot>) {
    && |before| == |actions| && Distinct(actions)
    && (forall i | 0 <= i < |before| :: ReadyToProcess(before[i]))
    && (forall i, j | 0 <= i < |before| && 0 <= j < |before| && i != j :: Disjoint(before[i], before[j]))
  }

  ghost function PointsOf(before: seq<Snapshot>): set<BucketPoint> {
    set s, p | s in before && p in s.cur + s.last :: p
  }

  lemma PointsIncluded(before: seq<Snapshot>, i: nat)
    requires i < |before|
    ensures forall k | 0 <= k < |before[i].cur| :: before[i].cur[k] in PointsOf(before)
    ensures forall k | 0 <= k < |before[i].last| :: before[i].last[k] in PointsOf(before)
  {
    forall p | p in before[i].cur + before[i].last
      ensures p in PointsOf(before)
    {
      assert before[i] in before;
    }
    assert forall k | 0 <= k < |before[i].cur| :: before[i].cur[k] in before[i].cur + before[i].last;
    assert forall k | 0 <= k < |before[i].last| :: before[i].last[k] in before[i].cur + before[i].last;
  }

  predicate FitsAll(before: seq<Snapshot>) {
    forall i | 0 <= i < |before| :: Fits(before[i].lastCounts, before[i].counts)
  }

  /**
   * Histograms: every action is post-processed on its own; the answer also tells a poll with nothing to compare to. It
   * crashes exactly when some action has more buckets than it had last time.
   */
  method PostProcessingHistogram(actions: seq<BucketPoints>, ghost before: seq<Snapshot>) returns (r: PostResult)
    requires AllReady(actions, before) && forall i | 0 <= i < |actions| :: actions[i].Snap() == before[i]
    modifies actions, PointsOf(before)
    ensures r.Panicked? <==> !FitsAll(before)
    ensures r.Compared? ==> forall i | 0 <= i < |actions| :: actions[i].Snap() == Processed(before[i])
    ensures r.Compared? ==>
              (r.reset <==>
               || (exists i | 0 <= i < |actions| :: GoesBack(before[i]))
               || (forall i | 0 <= i < |actions| :: before[i].cur != [] ==> before[i].last == []))
  {
    var resetDetected, noLastBucket := false, true;
    for i := 0 to |actions|
      invariant ProcessedUpTo(actions, before, i)
      invariant resetDetected <==> exists j | 0 <= j < i :: GoesBack(before[j])
      invariant noLastBucket <==> forall j | 0 <= j < i :: before[j].cur != [] ==> before[j].last == []
    {
      if actions[i].curBucket != [] && actions[i].lastBucket != [] {
        noLastBucket := false;
      }
      PointsIncluded(before, i);
      var one := PostProcessAt(actions, i, before);
      if one.Panicked? {
        return Panicked;
      }
      resetDetected := resetDetected || one.reset;
    }
    return Compared(resetDetected || noLastBucket);
  }

  /** The first `i` actions fit and have been processed, the others are as they were. */
  ghost predicate ProcessedUpTo(actions: seq<BucketPoints>, before: seq<Snapshot>, i: nat)
    requires AllReady(actions, before)
    reads actions, set i, k | 0 <= i < |actions| && 0 <= k < |actions[i].curBucket| :: actions[i].curBucket[k]
    reads set i, k | 0 <= i < |actions| && 0 <= k < |actions[i].lastBucket| :: actions[i].lastBucket[k]
  {
    forall j | 0 <= j < |actions| ::
      if j < i then Fits(before[j].lastCounts, before[j].counts) && actions[j].Snap() == Processed(before[j])
      else actions[j].Snap() == before[j]
  }

  /** Processing one action leaves the points of all the others alone. */
  method PostProcessAt(actions: seq<BucketPoints>, i: nat, ghost before: seq<Snapshot>) returns (r: PostResult)
    requires AllReady(actions, before) && i < |actions| && ProcessedUpTo(actions, before, i)
    modifies actions[i], before[i].cur, before[i].last
    ensures r.Panicked? <==> !Fits(before[i].lastCounts, before[i].counts)
    ensures r.Compared? ==> ProcessedUpTo(actions, before, i + 1) && (r.reset <==> GoesBack(before[i]))
  {
    assert actions[i].Snap() == before[i];
    r := actions[i].PostProcess();
  }

  class DataPoints {
    var lastSingleDataPoint: real
    var curSingleDataPoint: real

    constructor ()
      ensures lastSingleDataPoint == 0.0 && curSingleDataPoint == 0.0
    {
      lastSingleDataPoint, curSingleDataPoint := 0.0, 0.0;
    }
  }

  /** Counters: every action's total is replaced by its change and remembered. */
  method PostProcessingCounter(actions: seq<DataPoints>) returns (reset: bool)
    requires Distinct(actions)
    modifies actions
    ensures forall a | a in actions :: a.lastSingleDataPoint == old(a.curSingleDataPoint)
    ensures forall a | a in actions ::
              a.curSingleDataPoint == Delta(old(a.curSingleDataPoint), old(a.lastSingleDataPoint))
    ensures reset <==>
            || (exists a | a in actions :: old(a.curSingleDataPoint) < old(a.lastSingleDataPoint))
            || ((forall a | a in actions :: old(a.lastSingleDataPoint) == 0.0)
                && exists a | a in actions :: a.curSingleDataPoint != 0.0)
  {
    var resetDetected, noPrevious, noCurrent := false, true, true;
    for i := 0 to |actions|
      invariant forall j | 0 <= j < i ::
          && actions[j].lastSingleDataPoint == old(actions[j].curSingleDataPoint)
          && actions[j].curSingleDataPoint == Delta(old(actions[j].curSingleDataPoint), old(actions[j].lastSingleDataPoint))
      invariant forall j | i <= j < |actions| ::
          && actions[j].lastSingleDataPoint == old(actions[j].lastSingleDataPoint)
          && actions[j].curSingleDataPoint == old(actions[j].curSingleDataPoint)
      invariant resetDetected <==>
          exists j | 0 <= j < i :: old(actions[j].curSingleDataPoint) < old(actions[j].lastSingleDataPoint)
      invariant noPrevious <==> forall j | 0 <= j < i :: old(actions[j].lastSingleDataPoint) == 0.0
      invariant noCurrent <==> forall j | 0 <= j < i :: actions[j].curSingleDataPoint == 0.0
    {
      var a := actions[i];
      var currentTotal := a.curSingleDataPoint;
      if a.curSingleDataPoint < a.lastSingleDataPoint {
        resetDetected := true;
      } else {
        a.curSingleDataPoint := a.curSingleDataPoint - a.lastSingleDataPoint;
      }
      if a.lastSingleDataPoint != 0.0 {
        noPrevious := false;
      }
      if a.curSingleDataPoint != 0.0 {
        noCurrent := false;
      }
      a.lastSingleDataPoint := currentTotal;
    }
    return resetDetected || (noPrevious && !noCurrent);
  }
}
