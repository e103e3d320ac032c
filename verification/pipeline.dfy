/** One eligible scan cycle, from the input list text and the fetched
    histories to the output list text.  Fetching is not modelled: the
    histories of the i-th listed symbol are given as `fetched[i]`.
 */
module Pipeline {
  import opened Prices
  import opened Monthly
  import opened Records
  import opened Selection
  import opened ListFormat

  /** The (symbol, record) assignments in input order, one per listed
      symbol, duplicates included. */
  function Assignments(syms: seq<string>, fetched: seq<Histories>, currentMonth: int, currentYear: int)
    : (ps: seq<(string, SymbolRecord)>)
    requires 1 <= currentMonth <= 12
    requires |fetched| == |syms|
    requires forall i :: 0 <= i < |fetched| ==> Evaluable(fetched[i], currentMonth, currentYear)
    ensures |ps| == |syms|
    ensures forall i :: 0 <= i < |ps| ==>
              ps[i] == (syms[i], Evaluate(fetched[i], currentMonth, currentYear))
  {
    seq(|syms|, i requires 0 <= i < |syms| => (syms[i], Evaluate(fetched[i], currentMonth, currentYear)))
  }

  /** The ranked candidates of one cycle. */
  function Ranked(input: string, fetched: seq<Histories>, currentMonth: int, currentYear: int)
    : (r: seq<Candidate>)
    requires 1 <= currentMonth <= 12
    requires |fetched| == |Parse(input)|
    requires forall i :: 0 <= i < |fetched| ==> Evaluable(fetched[i], currentMonth, currentYear)
  {
    var ps := Assignments(Parse(input), fetched, currentMonth, currentYear);
    Rank(Filter(Collect(ps), currentMonth))
  }

  /** The ranked symbols come from the input list, each at most once, and
      nothing is ranked in January or February. */
  lemma RankedFromInput(input: string, fetched: seq<Histories>, currentMonth: int, currentYear: int)
    requires 1 <= currentMonth <= 12
    requires |fetched| == |Parse(input)|
    requires forall i :: 0 <= i < |fetched| ==> Evaluable(fetched[i], currentMonth, currentYear)
    ensures Distinct(Symbols(Ranked(input, fetched, currentMonth, currentYear)))
    ensures forall s :: s in Symbols(Ranked(input, fetched, currentMonth, currentYear)) ==> s in Parse(input)
    ensures currentMonth <= 2 ==> Ranked(input, fetched, currentMonth, currentYear) == []
  {
    var syms := Parse(input);
    var ps := Assignments(syms, fetched, currentMonth, currentYear);
    assert Keys(ps) == syms;
    RankAssignments(ps, currentMonth);
    if currentMonth <= 2 {
      forall i | 0 <= i < |ps| ensures !Passes(ps[i].1, currentMonth) {
        NothingPassesInJanuaryOrFebruary(fetched[i], currentMonth, currentYear);
      }
      NothingRankedWhenNonePasses(ps, currentMonth);
    }
  }

  /** The output list text of one cycle.  It reads back as the ranked
      symbols: at most 28, distinct, each from the input list; in January
      and February it is empty. */
  function Cycle(input: string, fetched: seq<Histories>, currentMonth: int, currentYear: int)
    : (output: string)
    requires 1 <= currentMonth <= 12
    requires |fetched| == |Parse(input)|
    requires forall i :: 0 <= i < |fetched| ==> Evaluable(fetched[i], currentMonth, currentYear)
    ensures Parse(output) == Symbols(Ranked(input, fetched, currentMonth, currentYear))
    ensures |Parse(output)| <= TopCount
    ensures Distinct(Parse(output))
    ensures forall s :: s in Parse(output) ==> s in Parse(input)
    ensures currentMonth <= 2 ==> output == ""
  {
    var out := Symbols(Ranked(input, fetched, currentMonth, currentYear));
    RankedFromInput(input, fetched, currentMonth, currentYear);
    ParseRender(out);
    Render(out)
  }
}
