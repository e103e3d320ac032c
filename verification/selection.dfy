/** The filter and rank stage: which symbols qualify, and the top of them
    ordered by their 1-day change.
 */
module Selection {
  import opened Prices
  import opened Monthly
  import opened Records

  /** How many ranked symbols are written out. */
  const TopCount: nat := 28

  /** The minimum change, in percent, each short window must show. */
  const MinWindowChange: real := 1.0

  /** A qualifying symbol with the 1-day change it is ranked by. */
  datatype Candidate = Candidate(symbol: string, day: real)

  /** The map holds a positive change under `key`; a missing key counts as
      0, which is not positive. */
  predicate PositiveAt(m: map<int, real>, key: int) {
    key in m && m[key] > 0.0
  }

  /** The inclusion test.  The three monthly keys are looked up without
      rolling over into the previous year: `currentMonth - 1` and
      `currentMonth - 2` are taken as they are, even when they are 0 or
      negative. */
  predicate Passes(r: SymbolRecord, currentMonth: int) {
    && PositiveAt(r.monthly, currentMonth)
    && PositiveAt(r.monthly, currentMonth - 1)
    && PositiveAt(r.monthly, currentMonth - 2)
    && r.day >= MinWindowChange
    && r.week >= MinWindowChange
    && r.fortnight >= MinWindowChange
    && r.month >= MinWindowChange
  }

  /** The candidate pair each dictionary entry would contribute. */
  function Candidates(d: seq<(string, SymbolRecord)>): (cs: seq<Candidate>)
    ensures |cs| == |d|
    ensures forall i :: 0 <= i < |d| ==> cs[i] == Candidate(d[i].0, d[i].1.day)
  {
    seq(|d|, i requires 0 <= i < |d| => Candidate(d[i].0, d[i].1.day))
  }

  function Symbols(cs: seq<Candidate>): (ss: seq<string>)
    ensures |ss| == |cs|
    ensures forall i :: 0 <= i < |cs| ==> ss[i] == cs[i].symbol
  {
    seq(|cs|, i requires 0 <= i < |cs| => cs[i].symbol)
  }

  /** The candidates name keys of `ks`, in the order those keys occur
      there. */
  predicate InKeyOrder(ks: seq<string>, cs: seq<Candidate>) {
    && (forall i :: 0 <= i < |cs| ==> cs[i].symbol in ks)
    && (forall i, j :: 0 <= i < j < |cs| ==> IndexOf(ks, cs[i].symbol) < IndexOf(ks, cs[j].symbol))
  }

  /** The qualifying entries of the dictionary, in dictionary order. */
  function Filter(d: seq<(string, SymbolRecord)>, currentMonth: int): (r: seq<Candidate>)
    requires Distinct(Keys(d))
    ensures |r| <= |d|
    ensures forall c :: c in r ==> c in Candidates(d)
    ensures forall i :: 0 <= i < |d| ==>
              (Candidate(d[i].0, d[i].1.day) in r <==> Passes(d[i].1, currentMonth))
    ensures Distinct(Symbols(r))
    ensures (forall i :: 0 <= i < |d| ==> !Passes(d[i].1, currentMonth)) ==> r == []
  {
    if |d| == 0 then []
    else
      var rest := Filter(d[1..], currentMonth);
      var head := Candidate(d[0].0, d[0].1.day);
      assert Candidates(d) == [head] + Candidates(d[1..]);
      TailFresh(d, rest);
      if Passes(d[0].1, currentMonth) then
        ConsDistinct(head, rest);
        [head] + rest
      else rest
  }

  /** The filter keeps dictionary order: the qualifying entries come out in
      the order their keys were first assigned.  With the membership and
      distinctness `Filter` states, this fixes its result completely. */
  lemma {:induction false} FilterInKeyOrder(d: seq<(string, SymbolRecord)>, currentMonth: int)
    requires Distinct(Keys(d))
    ensures InKeyOrder(Keys(d), Filter(d, currentMonth))
  {
    if |d| > 0 {
      var rest := Filter(d[1..], currentMonth);
      var head := Candidate(d[0].0, d[0].1.day);
      assert Keys(d[1..]) == Keys(d)[1..];
      FilterInKeyOrder(d[1..], currentMonth);
      TailFresh(d, rest);
      TailInKeyOrder(d, rest);
      if Passes(d[0].1, currentMonth) {
        assert Filter(d, currentMonth) == [head] + rest;
        ConsInKeyOrder(Keys(d), head, rest);
      } else {
        assert Filter(d, currentMonth) == rest;
      }
    }
  }

  /** Candidates in the order of a dictionary's tail are in the order of the
      whole dictionary, all after its first key. */
  lemma TailInKeyOrder(d: seq<(string, SymbolRecord)>, rest: seq<Candidate>)
    requires |d| > 0 && Distinct(Keys(d))
    requires InKeyOrder(Keys(d[1..]), rest)
    requires forall c :: c in rest ==> c.symbol != d[0].0
    ensures InKeyOrder(Keys(d), rest)
    ensures forall i :: 0 <= i < |rest| ==> 0 < IndexOf(Keys(d), rest[i].symbol)
  {
    var ks := Keys(d);
    assert Keys(d[1..]) == ks[1..];
    forall i | 0 <= i < |rest|
      ensures rest[i].symbol in ks
      ensures IndexOf(ks, rest[i].symbol) == 1 + IndexOf(ks[1..], rest[i].symbol)
    {
      assert rest[i] in rest;
    }
  }

  /** A candidate whose key comes before every key of an ordered list can go
      in front of it. */
  lemma ConsInKeyOrder(ks: seq<string>, a: Candidate, rest: seq<Candidate>)
    requires a.symbol in ks && InKeyOrder(ks, rest)
    requires forall i :: 0 <= i < |rest| ==> IndexOf(ks, a.symbol) < IndexOf(ks, rest[i].symbol)
    ensures InKeyOrder(ks, [a] + rest)
  {
    var r := [a] + rest;
    assert forall i :: 0 < i < |r| ==> r[i] == rest[i - 1];
  }

  /** Candidates drawn from the tail of a dictionary with distinct keys
      never name the head's symbol. */
  lemma TailFresh(d: seq<(string, SymbolRecord)>, rest: seq<Candidate>)
    requires |d| > 0 && Distinct(Keys(d))
    requires forall c :: c in rest ==> c in Candidates(d[1..])
    ensures forall c :: c in rest ==> c.symbol != d[0].0
  {
    forall c | c in rest ensures c.symbol != d[0].0 {
      var i :| 0 <= i < |d[1..]| && Candidates(d[1..])[i] == c;
      assert Keys(d)[i + 1] == c.symbol;
    }
  }

  /** Non-increasing by 1-day change. */
  predicate SortedDesc(s: seq<Candidate>) {
    forall i, j :: 0 <= i < j < |s| ==> s[i].day >= s[j].day
  }

  /** Inserts `x` ahead of the first element whose change does not exceed
      its own, so it precedes every equal element of `t`. */
  function Insert(x: Candidate, t: seq<Candidate>): (r: seq<Candidate>)
    requires SortedDesc(t)
    ensures |r| == |t| + 1
    ensures SortedDesc(r)
    ensures multiset(r) == multiset(t) + multiset{x}
  {
    if |t| == 0 || x.day >= t[0].day then [x] + t
    else
      assert t == [t[0]] + t[1..];
      var rest := Insert(x, t[1..]);
      AtMostHead(t, x, rest);
      ConsSorted(t[0], rest);
      [t[0]] + rest
  }

  /** A rearrangement of the tail of a sorted list plus an element no larger
      than its head lies entirely at or below that head. */
  lemma AtMostHead(t: seq<Candidate>, x: Candidate, rest: seq<Candidate>)
    requires SortedDesc(t) && |t| > 0 && x.day <= t[0].day
    requires multiset(rest) == multiset(t[1..]) + multiset{x}
    ensures forall i :: 0 <= i < |rest| ==> rest[i].day <= t[0].day
  {
    forall i | 0 <= i < |rest| ensures rest[i].day <= t[0].day {
      assert rest[i] in multiset(t[1..]) + multiset{x};
    }
  }

  lemma ConsSorted(a: Candidate, rest: seq<Candidate>)
    requires SortedDesc(rest)
    requires forall i :: 0 <= i < |rest| ==> rest[i].day <= a.day
    ensures SortedDesc([a] + rest)
  {
    var r := [a] + rest;
    assert forall i :: 0 < i < |r| ==> r[i] == rest[i - 1];
  }

  /** Sorts by 1-day change, highest first, keeping the input order among
      equal changes. */
  function SortDesc(s: seq<Candidate>): (r: seq<Candidate>)
    ensures |r| == |s|
    ensures SortedDesc(r)
    ensures multiset(r) == multiset(s)
  {
    if |s| == 0 then []
    else
      assert s == [s[0]] + s[1..];
      Insert(s[0], SortDesc(s[1..]))
  }

  /** Sorting a list that is already in order leaves it unchanged. */
  lemma {:induction false} SortSorted(s: seq<Candidate>)
    requires SortedDesc(s)
    ensures SortDesc(s) == s
  {
    if |s| > 0 {
      SortSorted(s[1..]);
      assert s == [s[0]] + s[1..];
    }
  }

  /** The elements whose 1-day change is exactly `v`, in order. */
  function WithDay(s: seq<Candidate>, v: real): seq<Candidate> {
    if |s| == 0 then []
    else if s[0].day == v then [s[0]] + WithDay(s[1..], v)
    else WithDay(s[1..], v)
  }

  lemma {:induction false} InsertStable(x: Candidate, t: seq<Candidate>, v: real)
    requires SortedDesc(t)
    ensures WithDay(Insert(x, t), v) == (if x.day == v then [x] else []) + WithDay(t, v)
  {
    if |t| == 0 || x.day >= t[0].day {
      assert Insert(x, t) == [x] + t;
      assert ([x] + t)[1..] == t;
    } else {
      var r := Insert(x, t);
      assert r == [t[0]] + Insert(x, t[1..]);
      assert r[1..] == Insert(x, t[1..]);
      InsertStable(x, t[1..], v);
    }
  }

  /** The sort is stable: among the elements sharing any one change, the
      sorted order is the input order. */
  lemma {:induction false} SortStable(s: seq<Candidate>, v: real)
    ensures WithDay(SortDesc(s), v) == WithDay(s, v)
  {
    if |s| > 0 {
      SortStable(s[1..], v);
      InsertStable(s[0], SortDesc(s[1..]), v);
    }
  }

  function Min(a: int, b: int): int {
    if a <= b then a else b
  }

  /** The ranked list: the qualifying candidates sorted by 1-day change,
      highest first, cut to the first `TopCount`. */
  function Rank(s: seq<Candidate>): (r: seq<Candidate>)
    ensures |r| == Min(TopCount, |s|)
    ensures SortedDesc(r)
    ensures multiset(r) <= multiset(s)
    ensures forall c :: c in s && c !in r ==> forall x :: x in r ==> x.day >= c.day
  {
    var sorted := SortDesc(s);
    var n := Min(TopCount, |s|);
    assert sorted == sorted[..n] + sorted[n..];
    assert multiset(sorted) == multiset(sorted[..n]) + multiset(sorted[n..]);
    forall c | c in s && c !in sorted[..n]
      ensures forall x :: x in sorted[..n] ==> x.day >= c.day
    {
      assert c in multiset(sorted);
      BelowCut(sorted, n, c);
    }
    sorted[..n]
  }

  /** A list already in order and no longer than the cut is its own
      ranking. */
  lemma RankSortedShort(s: seq<Candidate>)
    requires SortedDesc(s) && |s| <= TopCount
    ensures Rank(s) == s
  {
    SortSorted(s);
    assert SortDesc(s)[..|s|] == s;
  }

  /** In a sorted list, an element missing from a prefix sits after it, so
      no element of the prefix has a smaller change. */
  lemma BelowCut(sorted: seq<Candidate>, n: int, c: Candidate)
    requires SortedDesc(sorted) && 0 <= n <= |sorted|
    requires c in sorted && c !in sorted[..n]
    ensures forall x :: x in sorted[..n] ==> x.day >= c.day
  {
    var j :| 0 <= j < |sorted| && sorted[j] == c;
    assert j >= n;
  }

  lemma {:induction false} WithDayPrefix(s: seq<Candidate>, n: int, v: real)
    requires 0 <= n <= |s|
    ensures WithDay(s[..n], v) <= WithDay(s, v)
  {
    if n > 0 {
      assert s[..n][1..] == s[1..][..n - 1];
      WithDayPrefix(s[1..], n - 1, v);
    }
  }

  /** Truncation keeps stability: the ranked elements sharing any one
      change are a leading part of the input's elements with that change. */
  lemma RankStable(s: seq<Candidate>, v: real)
    ensures WithDay(Rank(s), v) <= WithDay(s, v)
  {
    SortStable(s, v);
    WithDayPrefix(SortDesc(s), Min(TopCount, |s|), v);
  }

  lemma {:induction false} WithDayMembers(s: seq<Candidate>, v: real)
    ensures forall c :: c in WithDay(s, v) ==> c in s
  {
    if |s| > 0 {
      WithDayMembers(s[1..], v);
    }
  }

  /** Picking out the candidates with one change keeps their order. */
  lemma {:induction false} WithDayInKeyOrder(ks: seq<string>, s: seq<Candidate>, v: real)
    requires InKeyOrder(ks, s)
    ensures InKeyOrder(ks, WithDay(s, v))
  {
    if |s| > 0 {
      var tail := s[1..];
      assert forall i :: 0 <= i < |tail| ==> tail[i] == s[i + 1];
      WithDayInKeyOrder(ks, tail, v);
      if s[0].day == v {
        var w := WithDay(tail, v);
        WithDayMembers(tail, v);
        forall i | 0 <= i < |w| ensures IndexOf(ks, s[0].symbol) < IndexOf(ks, w[i].symbol) {
          assert w[i] in tail;
        }
        ConsInKeyOrder(ks, s[0], w);
      }
    }
  }

  /** Ties in the ranking follow dictionary order: among the ranked
      candidates with any one 1-day change, the order is that of their keys
      in the dictionary, and they are the first such qualifying entries. */
  lemma RankTiesInKeyOrder(d: seq<(string, SymbolRecord)>, currentMonth: int, v: real)
    requires Distinct(Keys(d))
    ensures WithDay(Rank(Filter(d, currentMonth)), v) <= WithDay(Filter(d, currentMonth), v)
    ensures InKeyOrder(Keys(d), WithDay(Rank(Filter(d, currentMonth)), v))
  {
    var f := Filter(d, currentMonth);
    FilterInKeyOrder(d, currentMonth);
    RankStable(f, v);
    WithDayInKeyOrder(Keys(d), f, v);
    PrefixInKeyOrder(Keys(d), WithDay(f, v), WithDay(Rank(f), v));
  }

  lemma PrefixInKeyOrder(ks: seq<string>, w: seq<Candidate>, p: seq<Candidate>)
    requires InKeyOrder(ks, w) && p <= w
    ensures InKeyOrder(ks, p)
  {
    assert p == w[..|p|];
  }

  lemma ConsDistinct(a: Candidate, rest: seq<Candidate>)
    requires Distinct(Symbols(rest))
    requires forall y :: y in rest ==> y.symbol != a.symbol
    ensures Distinct(Symbols([a] + rest))
  {
    var r := [a] + rest;
    assert forall i :: 0 < i < |r| ==> r[i] == rest[i - 1];
  }

  lemma HeadFresh(t: seq<Candidate>)
    requires |t| > 0 && Distinct(Symbols(t))
    ensures Distinct(Symbols(t[1..]))
    ensures forall y :: y in t[1..] ==> y.symbol != t[0].symbol
  {
    assert forall i :: 0 <= i < |t| - 1 ==> Symbols(t[1..])[i] == Symbols(t)[i + 1];
  }

  lemma {:induction false} InsertDistinct(x: Candidate, t: seq<Candidate>)
    requires SortedDesc(t) && Distinct(Symbols(t))
    requires forall y :: y in t ==> y.symbol != x.symbol
    ensures Distinct(Symbols(Insert(x, t)))
  {
    if |t| == 0 || x.day >= t[0].day {
      ConsDistinct(x, t);
    } else {
      HeadFresh(t);
      assert forall y :: y in t[1..] ==> y in t;
      var rest := Insert(x, t[1..]);
      InsertDistinct(x, t[1..]);
      forall y | y in rest ensures y.symbol != t[0].symbol {
        assert y in multiset(rest);
        assert y == x || y in multiset(t[1..]);
      }
      ConsDistinct(t[0], rest);
    }
  }

  lemma {:induction false} SortDistinct(s: seq<Candidate>)
    requires Distinct(Symbols(s))
    ensures Distinct(Symbols(SortDesc(s)))
  {
    if |s| > 0 {
      HeadFresh(s);
      SortDistinct(s[1..]);
      var t := SortDesc(s[1..]);
      forall y | y in t ensures y.symbol != s[0].symbol {
        assert y in multiset(s[1..]);
      }
      InsertDistinct(s[0], t);
    }
  }

  /** A ranked list built from distinct symbols names each at most once. */
  lemma RankDistinct(s: seq<Candidate>)
    requires Distinct(Symbols(s))
    ensures Distinct(Symbols(Rank(s)))
  {
    SortDistinct(s);
    var sorted := SortDesc(s);
    var r := Rank(s);
    assert r == sorted[..|r|];
    assert forall i :: 0 <= i < |r| ==> Symbols(r)[i] == Symbols(sorted)[i];
  }

  /** Bucket `b` holds bars and its change is positive. */
  predicate Rose(h: seq<Bar>, b: Bucket) {
    var bars := InBucket(h, b);
    |bars| > 0 && Computable(bars) && PercentChange(bars) > 0.0
  }

  /** Seen through the extractor, the filter asks for a positive change in
      each of the three calendar months, with bars in each, and at least 1%
      in each short window; but only from March on, since the lookup keys
      `currentMonth - 1` and `currentMonth - 2` are not rolled over. */
  lemma PassesEvaluated(hs: Histories, currentMonth: int, currentYear: int)
    requires 1 <= currentMonth <= 12
    requires Evaluable(hs, currentMonth, currentYear)
    ensures Passes(Evaluate(hs, currentMonth, currentYear), currentMonth) <==>
              && 3 <= currentMonth
              && Rose(hs.year, Buckets(currentMonth, currentYear)[0])
              && Rose(hs.year, Buckets(currentMonth, currentYear)[1])
              && Rose(hs.year, Buckets(currentMonth, currentYear)[2])
              && PercentChange(hs.day) >= MinWindowChange
              && PercentChange(hs.week) >= MinWindowChange
              && PercentChange(hs.fortnight) >= MinWindowChange
              && PercentChange(hs.month) >= MinWindowChange
  {
    MonthsRoseIff(hs.year, currentMonth, currentYear);
  }

  /** The monthly half of the test: the three raw keys hold positive
      changes exactly when it is March or later and all three buckets
      rose. */
  lemma MonthsRoseIff(h: seq<Bar>, currentMonth: int, currentYear: int)
    requires 1 <= currentMonth <= 12
    requires BucketsComputable(h, currentMonth, currentYear)
    ensures var m := MonthlyChanges(h, currentMonth, currentYear);
            var bs := Buckets(currentMonth, currentYear);
            (PositiveAt(m, currentMonth - 2) && PositiveAt(m, currentMonth - 1) && PositiveAt(m, currentMonth))
            <==>
            (3 <= currentMonth && Rose(h, bs[0]) && Rose(h, bs[1]) && Rose(h, bs[2]))
  {
    if 3 <= currentMonth {
      MonthsRoseFromMarch(h, currentMonth, currentYear);
    } else {
      assert !PositiveAt(MonthlyChanges(h, currentMonth, currentYear), currentMonth - 2);
    }
  }

  lemma MonthsRoseFromMarch(h: seq<Bar>, currentMonth: int, currentYear: int)
    requires 3 <= currentMonth <= 12
    requires BucketsComputable(h, currentMonth, currentYear)
    ensures var m := MonthlyChanges(h, currentMonth, currentYear);
            var bs := Buckets(currentMonth, currentYear);
            (PositiveAt(m, currentMonth - 2) && PositiveAt(m, currentMonth - 1) && PositiveAt(m, currentMonth))
            <==>
            (Rose(h, bs[0]) && Rose(h, bs[1]) && Rose(h, bs[2]))
  {
    RoseIffPositiveEntry(h, currentMonth, currentYear, 0);
    RoseIffPositiveEntry(h, currentMonth, currentYear, 1);
    RoseIffPositiveEntry(h, currentMonth, currentYear, 2);
  }

  /** From March on, bucket `k` rose exactly when the raw key
      `currentMonth - 2 + k` holds a positive change. */
  lemma RoseIffPositiveEntry(h: seq<Bar>, currentMonth: int, currentYear: int, k: int)
    requires 3 <= currentMonth <= 12
    requires BucketsComputable(h, currentMonth, currentYear)
    requires 0 <= k < 3
    ensures var m := MonthlyChanges(h, currentMonth, currentYear);
            var key := currentMonth - 2 + k;
            Rose(h, Buckets(currentMonth, currentYear)[k]) <==> PositiveAt(m, key)
  {
    MonthlyAt(h, currentMonth, currentYear, k);
    assert Buckets(currentMonth, currentYear)[k].month == currentMonth - 2 + k;
  }

  /** In January and February nothing can pass. */
  lemma NothingPassesInJanuaryOrFebruary(hs: Histories, currentMonth: int, currentYear: int)
    requires currentMonth == 1 || currentMonth == 2
    requires Evaluable(hs, currentMonth, currentYear)
    ensures !Passes(Evaluate(hs, currentMonth, currentYear), currentMonth)
  {
    PassesEvaluated(hs, currentMonth, currentYear);
  }

  /** Every ranked candidate is a qualifying dictionary entry. */
  lemma RankedEntry(d: seq<(string, SymbolRecord)>, currentMonth: int, c: Candidate)
    requires Distinct(Keys(d))
    requires c in Rank(Filter(d, currentMonth))
    ensures exists j :: 0 <= j < |d| && d[j].0 == c.symbol && Passes(d[j].1, currentMonth)
  {
    var filtered := Filter(d, currentMonth);
    assert c in multiset(filtered);
    assert c in Candidates(d);
    var j :| 0 <= j < |d| && Candidates(d)[j] == c;
    assert Candidate(d[j].0, d[j].1.day) in filtered;
  }

  /** When no assigned record passes, nothing is ranked. */
  lemma NothingRankedWhenNonePasses(ps: seq<(string, SymbolRecord)>, currentMonth: int)
    requires forall i :: 0 <= i < |ps| ==> !Passes(ps[i].1, currentMonth)
    ensures Rank(Filter(Collect(ps), currentMonth)) == []
  {
    var d := Collect(ps);
    var filtered := Filter(d, currentMonth);
    forall j | 0 <= j < |d| ensures !Passes(d[j].1, currentMonth) {
      assert d[j] in ps;
      var k :| 0 <= k < |ps| && ps[k] == d[j];
    }
  }

  /** The ranking of a scan's assignments: symbols drawn from the
      assignments, each at most once. */
  lemma RankAssignments(ps: seq<(string, SymbolRecord)>, currentMonth: int)
    ensures Distinct(Symbols(Rank(Filter(Collect(ps), currentMonth))))
    ensures forall s :: s in Symbols(Rank(Filter(Collect(ps), currentMonth))) ==> s in Keys(ps)
  {
    var d := Collect(ps);
    var ranked := Rank(Filter(d, currentMonth));
    RankDistinct(Filter(d, currentMonth));
    forall s | s in Symbols(ranked) ensures s in Keys(ps) {
      var i :| 0 <= i < |ranked| && Symbols(ranked)[i] == s;
      assert ranked[i] in ranked;
      RankedEntry(d, currentMonth, ranked[i]);
      var j :| 0 <= j < |d| && d[j].0 == s && Passes(d[j].1, currentMonth);
      assert s in Keys(d);
    }
  }

  /** The records of the three-symbol example below: A and B pass, C's
      14-day change is only 0.5%. */
  function ExampleRecords(): seq<(string, SymbolRecord)> {
    var rising := map[4 := 3.0, 5 := 2.0, 6 := 1.5];
    [("A", SymbolRecord(5.0, 4.0, 3.0, 2.0, rising)),
     ("B", SymbolRecord(2.0, 2.0, 2.0, 2.0, rising)),
     ("C", SymbolRecord(3.0, 3.0, 0.5, 3.0, rising))]
  }

  lemma ExampleFilter()
    ensures Distinct(Keys(ExampleRecords()))
    ensures Filter(ExampleRecords(), 6) == [Candidate("A", 5.0), Candidate("B", 2.0)]
  {
    var d := ExampleRecords();
    assert Keys(d) == ["A", "B", "C"];
    assert d[1..][1..] == [d[2]];
    assert [d[2]][1..] == [];
  }

  /** In June, with A at 5% and B at 2% over the day, the ranking is A
      then B, and C is left out. */
  lemma ThreeSymbolExample()
    ensures Distinct(Keys(ExampleRecords()))
    ensures Symbols(Rank(Filter(ExampleRecords(), 6))) == ["A", "B"]
  {
    ExampleFilter();
    ExampleRanking();
    ExampleSymbols();
  }

  lemma ExampleRanking()
    ensures Distinct(Keys(ExampleRecords()))
    ensures Rank(Filter(ExampleRecords(), 6)) == [Candidate("A", 5.0), Candidate("B", 2.0)]
  {
    ExampleFilter();
    ExampleRank();
  }

  lemma ExampleSymbols()
    ensures Symbols([Candidate("A", 5.0), Candidate("B", 2.0)]) == ["A", "B"]
  {
  }

  lemma ExampleRank()
    ensures Rank([Candidate("A", 5.0), Candidate("B", 2.0)]) == [Candidate("A", 5.0), Candidate("B", 2.0)]
  {
    var f := [Candidate("A", 5.0), Candidate("B", 2.0)];
    assert SortedDesc(f);
    RankSortedShort(f);
  }
}
