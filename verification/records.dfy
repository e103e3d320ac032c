/** Per-symbol performance records and the insertion-ordered dictionary the
    scan collects them into.
 */
module Records {
  import opened Prices
  import opened Monthly

  /** The four window changes of one symbol and its monthly change map. */
  datatype SymbolRecord = SymbolRecord(
    day: real,
    week: real,
    fortnight: real,
    month: real,
    monthly: map<int, real>)

  /** The five histories fetched for one symbol: 1 day, 1 week, 14 days,
      1 month and 1 year. */
  datatype Histories = Histories(
    day: seq<Bar>,
    week: seq<Bar>,
    fortnight: seq<Bar>,
    month: seq<Bar>,
    year: seq<Bar>)

  /** Every change the evaluation takes is defined. */
  predicate Evaluable(hs: Histories, currentMonth: int, currentYear: int)
    requires 1 <= currentMonth <= 12
  {
    && Computable(hs.day) && Computable(hs.week)
    && Computable(hs.fortnight) && Computable(hs.month)
    && BucketsComputable(hs.year, currentMonth, currentYear)
  }

  /** The record of one symbol: each short window independently, with the
      sentinel 0 for a window that came back empty. */
  function Evaluate(hs: Histories, currentMonth: int, currentYear: int): (r: SymbolRecord)
    requires 1 <= currentMonth <= 12
    requires Evaluable(hs, currentMonth, currentYear)
    ensures |hs.day| == 0 ==> r.day == 0.0
    ensures |hs.week| == 0 ==> r.week == 0.0
    ensures |hs.fortnight| == 0 ==> r.fortnight == 0.0
    ensures |hs.month| == 0 ==> r.month == 0.0
    ensures |hs.day| > 0 ==>
              r.day * hs.day[0].open == 100.0 * (hs.day[|hs.day| - 1].close - hs.day[0].open)
    ensures |hs.week| > 0 ==>
              r.week * hs.week[0].open == 100.0 * (hs.week[|hs.week| - 1].close - hs.week[0].open)
    ensures |hs.fortnight| > 0 ==>
              r.fortnight * hs.fortnight[0].open
                == 100.0 * (hs.fortnight[|hs.fortnight| - 1].close - hs.fortnight[0].open)
    ensures |hs.month| > 0 ==>
              r.month * hs.month[0].open == 100.0 * (hs.month[|hs.month| - 1].close - hs.month[0].open)
    ensures |r.monthly| <= 3
    ensures forall k :: 0 <= k < 3 ==> Recorded(r.monthly, hs.year, Buckets(currentMonth, currentYear)[k])
  {
    SymbolRecord(
      PercentChange(hs.day),
      PercentChange(hs.week),
      PercentChange(hs.fortnight),
      PercentChange(hs.month),
      MonthlyChanges(hs.year, currentMonth, currentYear))
  }

  /** The keys of an association list, in order. */
  function Keys<V>(d: seq<(string, V)>): (ks: seq<string>)
    ensures |ks| == |d|
    ensures forall i :: 0 <= i < |d| ==> ks[i] == d[i].0
  {
    seq(|d|, i requires 0 <= i < |d| => d[i].0)
  }

  /** The position where key `k` first occurs in `ks`. */
  function IndexOf(ks: seq<string>, k: string): (i: nat)
    requires k in ks
    ensures i < |ks| && ks[i] == k
    ensures forall j :: 0 <= j < i ==> ks[j] != k
  {
    if ks[0] == k then 0 else 1 + IndexOf(ks[1..], k)
  }

  predicate Distinct(s: seq<string>) {
    forall i, j :: 0 <= i < j < |s| ==> s[i] != s[j]
  }

  /** Dictionary assignment `d[k] = v` on an insertion-ordered dictionary:
      an existing key keeps its position and takes the new value, a new key
      goes at the end. */
  function Put<V>(d: seq<(string, V)>, k: string, v: V): (r: seq<(string, V)>)
    requires Distinct(Keys(d))
    ensures Distinct(Keys(r))
    ensures Keys(r) == if k in Keys(d) then Keys(d) else Keys(d) + [k]
    ensures forall i :: 0 <= i < |d| && d[i].0 != k ==> r[i] == d[i]
    ensures forall i :: 0 <= i < |r| && r[i].0 == k ==> r[i].1 == v
    ensures forall e :: e in r ==> e in d || e == (k, v)
  {
    if k in Keys(d) then
      var r := seq(|d|, i requires 0 <= i < |d| => if d[i].0 == k then (k, v) else d[i]);
      assert Keys(r) == Keys(d);
      r
    else
      assert Keys(d + [(k, v)]) == Keys(d) + [k];
      d + [(k, v)]
  }

  /** The keys of `s` at the positions where they occur for the first time. */
  function FirstOccurrences(s: seq<string>): seq<string> {
    if |s| == 0 then []
    else if s[|s| - 1] in s[..|s| - 1] then FirstOccurrences(s[..|s| - 1])
    else FirstOccurrences(s[..|s| - 1]) + [s[|s| - 1]]
  }

  /** The dictionary built by assigning each pair of `ps` in turn. */
  function Collect<V>(ps: seq<(string, V)>): (d: seq<(string, V)>)
    ensures Distinct(Keys(d))
    ensures forall k :: k in Keys(d) <==> k in Keys(ps)
    ensures Keys(d) == FirstOccurrences(Keys(ps))
    ensures forall e :: e in d ==> e in ps
  {
    if |ps| == 0 then []
    else
      var pre := ps[..|ps| - 1];
      var last := ps[|ps| - 1];
      assert Keys(ps) == Keys(pre) + [last.0];
      assert Keys(ps)[..|ps| - 1] == Keys(pre);
      Put(Collect(pre), last.0, last.1)
  }

  lemma CollectLast<V>(ps: seq<(string, V)>)
    requires |ps| > 0
    ensures Collect(ps) == Put(Collect(ps[..|ps| - 1]), ps[|ps| - 1].0, ps[|ps| - 1].1)
  {
  }

  /** A pair that no later pair overrides is the one the dictionary keeps. */
  lemma {:induction false} CollectKeepsLast<V>(ps: seq<(string, V)>, j: int)
    requires 0 <= j < |ps|
    requires forall q :: j < q < |ps| ==> ps[q].0 != ps[j].0
    ensures ps[j] in Collect(ps)
  {
    var pre := ps[..|ps| - 1];
    var last := ps[|ps| - 1];
    var d := Collect(ps);
    CollectLast(ps);
    if j == |ps| - 1 {
      assert last.0 in Keys(d);
      var i :| 0 <= i < |d| && Keys(d)[i] == last.0;
      assert d[i].0 == last.0;
      assert d[i].1 == last.1;
    } else {
      assert ps[j] == pre[j];
      CollectKeepsLast(pre, j);
      var c := Collect(pre);
      var i :| 0 <= i < |c| && c[i] == ps[j];
      assert d[i] == ps[j];
    }
  }
}
