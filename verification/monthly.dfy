/** The monthly trend extractor: percentage change over each of the current
    calendar month and the two before it, keyed by the bare month number.
 */
module Monthly {
  import opened Prices

  /** A calendar month of a given year. */
  datatype Bucket = Bucket(month: int, year: int)

  /** Number of months since January of year 0; an independent measure of
      "how many months apart" two buckets are. */
  function MonthIndex(b: Bucket): int {
    b.year * 12 + b.month - 1
  }

  /** Resolves a raw month index (possibly 0 or -1, as `current_month - 2`
      can be) to a calendar month, rolling back into the previous year. */
  function Resolve(raw: int, year: int): (b: Bucket)
    requires -1 <= raw <= 12
    ensures 1 <= b.month <= 12
    ensures b.year == (if raw <= 0 then year - 1 else year)
    ensures MonthIndex(b) == year * 12 + raw - 1
  {
    if raw <= 0 then Bucket(raw + 12, year - 1) else Bucket(raw, year)
  }

  /** The three buckets, oldest first: two months back, one month back, and
      the current month. */
  function Buckets(currentMonth: int, currentYear: int): (bs: seq<Bucket>)
    requires 1 <= currentMonth <= 12
    ensures |bs| == 3
    ensures forall k :: 0 <= k < 3 ==> 1 <= bs[k].month <= 12
    ensures forall k :: 0 <= k < 3 ==>
              MonthIndex(bs[k]) == MonthIndex(Bucket(currentMonth, currentYear)) - (2 - k)
    ensures forall k :: 0 <= k < 3 ==>
              (bs[k].year == currentYear - 1 <==> currentMonth - 2 + k <= 0)
    ensures forall j, k :: 0 <= j < k < 3 ==> bs[j].month != bs[k].month
    ensures bs[2] == Bucket(currentMonth, currentYear)
  {
    [Resolve(currentMonth - 2, currentYear),
     Resolve(currentMonth - 1, currentYear),
     Resolve(currentMonth, currentYear)]
  }

  /** In January the window reaches back to November and December of the
      previous year. */
  lemma JanuaryBuckets(y: int)
    ensures Buckets(1, y) == [Bucket(11, y - 1), Bucket(12, y - 1), Bucket(1, y)]
  {
  }

  predicate InMonth(x: Bar, b: Bucket) {
    x.month == b.month && x.year == b.year
  }

  /** The bars of `h` that fall in bucket `b`, in their original order. */
  function InBucket(h: seq<Bar>, b: Bucket): (r: seq<Bar>)
    ensures |r| <= |h|
    ensures |r| == 0 <==> forall i :: 0 <= i < |h| ==> !InMonth(h[i], b)
  {
    if |h| == 0 then []
    else if InMonth(h[0], b) then [h[0]] + InBucket(h[1..], b)
    else InBucket(h[1..], b)
  }

  /** The bucket holds exactly the bars of the history in its month. */
  lemma {:induction false} InBucketMembers(h: seq<Bar>, b: Bucket)
    ensures forall x :: x in InBucket(h, b) <==> x in h && InMonth(x, b)
  {
    if |h| > 0 {
      InBucketMembers(h[1..], b);
      assert h == [h[0]] + h[1..];
    }
  }

  /** Filtering distributes over concatenation of histories. */
  lemma {:induction false} InBucketAppend(h: seq<Bar>, g: seq<Bar>, b: Bucket)
    ensures InBucket(h + g, b) == InBucket(h, b) + InBucket(g, b)
  {
    if |h| > 0 {
      assert (h + g)[1..] == h[1..] + g;
      InBucketAppend(h[1..], g, b);
    } else {
      assert h + g == g;
    }
  }

  /** Appending one bar adds it to the bucket exactly when it falls in the
      bucket's month. */
  lemma InBucketSnoc(h: seq<Bar>, x: Bar, b: Bucket)
    ensures InBucket(h + [x], b) == InBucket(h, b) + (if InMonth(x, b) then [x] else [])
  {
    InBucketAppend(h, [x], b);
    assert [x][1..] == [];
  }

  /** Bars after the last one in the bucket's month do not change it. */
  lemma InBucketUpTo(h: seq<Bar>, b: Bucket, n: int)
    requires 0 <= n <= |h|
    requires forall j :: n <= j < |h| ==> !InMonth(h[j], b)
    ensures InBucket(h, b) == InBucket(h[..n], b)
  {
    assert h == h[..n] + h[n..];
    InBucketAppend(h[..n], h[n..], b);
    assert forall j :: 0 <= j < |h| - n ==> h[n..][j] == h[n + j];
  }

  /** Bars before the first one in the bucket's month do not change it. */
  lemma InBucketFrom(h: seq<Bar>, b: Bucket, n: int)
    requires 0 <= n <= |h|
    requires forall j :: 0 <= j < n ==> !InMonth(h[j], b)
    ensures InBucket(h, b) == InBucket(h[n..], b)
  {
    assert h == h[..n] + h[n..];
    InBucketAppend(h[..n], h[n..], b);
    assert forall j :: 0 <= j < n ==> h[..n][j] == h[j];
  }

  /** The bucket's first bar is the earliest bar of the history that falls
      in that month. */
  lemma FirstOfBucket(h: seq<Bar>, b: Bucket, i: int)
    requires 0 <= i < |h| && InMonth(h[i], b)
    requires forall j :: 0 <= j < i ==> !InMonth(h[j], b)
    ensures |InBucket(h, b)| > 0 && InBucket(h, b)[0] == h[i]
  {
    InBucketFrom(h, b, i);
    assert h[i..][1..] == h[i + 1..];
  }

  /** The bucket's last bar is the latest bar of the history that falls in
      that month. */
  lemma LastOfBucket(h: seq<Bar>, b: Bucket, i: int)
    requires 0 <= i < |h| && InMonth(h[i], b)
    requires forall j :: i < j < |h| ==> !InMonth(h[j], b)
    ensures |InBucket(h, b)| > 0 && InBucket(h, b)[|InBucket(h, b)| - 1] == h[i]
  {
    InBucketUpTo(h, b, i + 1);
    assert h[..i + 1] == h[..i] + [h[i]];
    InBucketSnoc(h[..i], h[i], b);
  }

  /** Every bucket's change is defined (empty, or a non-zero first open). */
  predicate BucketsComputable(h: seq<Bar>, currentMonth: int, currentYear: int)
    requires 1 <= currentMonth <= 12
  {
    forall k :: 0 <= k < 3 ==> Computable(InBucket(h, Buckets(currentMonth, currentYear)[k]))
  }

  /** Records the bucket's change under its bare month number, unless the
      bucket holds no bars. */
  function AddBucket(acc: map<int, real>, h: seq<Bar>, b: Bucket): (m: map<int, real>)
    requires Computable(InBucket(h, b))
    ensures |m| <= |acc| + 1
    ensures |InBucket(h, b)| == 0 ==> m == acc
    ensures |InBucket(h, b)| > 0 ==> m == acc[b.month := PercentChange(InBucket(h, b))]
  {
    var s := InBucket(h, b);
    if |s| == 0 then acc else acc[b.month := PercentChange(s)]
  }

  /** `m` holds bucket `b`'s change under its month exactly when `b` holds
      a bar. */
  ghost predicate Recorded(m: map<int, real>, h: seq<Bar>, b: Bucket) {
    && (b.month in m <==> |InBucket(h, b)| > 0)
    && (b.month in m ==> Computable(InBucket(h, b)) && m[b.month] == PercentChange(InBucket(h, b)))
  }

  /** Adding bucket `b` records it and leaves every other month's entry as
      it was. */
  lemma BucketRecorded(acc: map<int, real>, h: seq<Bar>, b: Bucket, m: map<int, real>)
    requires Computable(InBucket(h, b))
    requires m == AddBucket(acc, h, b)
    requires b.month !in acc
    ensures Recorded(m, h, b)
    ensures forall c: Bucket :: c.month != b.month && Recorded(acc, h, c) ==> Recorded(m, h, c)
  {
  }

  /** The monthly change map for a one-year history seen in
      (`currentMonth`, `currentYear`). */
  function MonthlyChanges(h: seq<Bar>, currentMonth: int, currentYear: int): (m: map<int, real>)
    requires 1 <= currentMonth <= 12
    requires BucketsComputable(h, currentMonth, currentYear)
    ensures |m| <= 3
    ensures forall key :: key in m ==> 1 <= key <= 12
    ensures var bs := Buckets(currentMonth, currentYear);
            m.Keys <= {bs[0].month, bs[1].month, bs[2].month}
    ensures forall k :: 0 <= k < 3 ==> Recorded(m, h, Buckets(currentMonth, currentYear)[k])
  {
    var bs := Buckets(currentMonth, currentYear);
    var m0 := AddBucket(map[], h, bs[0]);
    var m1 := AddBucket(m0, h, bs[1]);
    var m := AddBucket(m1, h, bs[2]);
    assert m.Keys <= {bs[0].month, bs[1].month, bs[2].month};
    BucketRecorded(map[], h, bs[0], m0);
    BucketRecorded(m0, h, bs[1], m1);
    BucketRecorded(m1, h, bs[2], m);
    assert Recorded(m1, h, bs[0]) && Recorded(m, h, bs[0]);
    assert Recorded(m, h, bs[1]);
    m
  }

  /** One bucket's entry in the monthly map, stated through its bars. */
  lemma MonthlyAt(h: seq<Bar>, currentMonth: int, currentYear: int, k: int)
    requires 1 <= currentMonth <= 12
    requires BucketsComputable(h, currentMonth, currentYear)
    requires 0 <= k < 3
    ensures var b := Buckets(currentMonth, currentYear)[k];
            var m := MonthlyChanges(h, currentMonth, currentYear);
            && Computable(InBucket(h, b))
            && (b.month in m <==> |InBucket(h, b)| > 0)
            && (b.month in m ==> m[b.month] == PercentChange(InBucket(h, b)))
  {
    var b := Buckets(currentMonth, currentYear)[k];
    assert Recorded(MonthlyChanges(h, currentMonth, currentYear), h, b);
  }
}
