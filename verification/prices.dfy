/** Price bars and the percentage change over a window of bars.

    A bar is one open/close observation.  Only the calendar month and year
    of its timestamp matter to the program (the monthly extractor filters on
    them), so the timestamp is reduced to that pair.  Prices are exact reals:
    floating-point rounding is not modelled.
 */
module Prices {

  datatype Bar = Bar(open: real, close: real, year: int, month: int)

  /** A window whose change is defined: the empty window (sentinel 0) or one
      whose first open is non-zero, so that the division is defined. */
  predicate Computable(h: seq<Bar>) {
    |h| == 0 || h[0].open != 0.0
  }

  /** Percentage change from the first bar's open to the last bar's close,
      with 0 for a window that holds no bars. */
  function PercentChange(h: seq<Bar>): (r: real)
    requires Computable(h)
    ensures |h| == 0 ==> r == 0.0
    ensures |h| > 0 ==> r * h[0].open == 100.0 * (h[|h| - 1].close - h[0].open)
  {
    if |h| == 0 then 0.0
    else (h[|h| - 1].close - h[0].open) / h[0].open * 100.0
  }

  /** With a positive first open, the change is positive exactly when the
      window closed above where it opened. */
  lemma PositiveChangeIffRise(h: seq<Bar>)
    requires |h| > 0 && h[0].open > 0.0
    ensures PercentChange(h) > 0.0 <==> h[|h| - 1].close > h[0].open
  {
    var o, c := h[0].open, h[|h| - 1].close;
    var r := PercentChange(h);
    assert r * o == 100.0 * (c - o);
    assert r > 0.0 <==> r * o > 0.0;
  }

  /** With a positive first open, the change reaches the threshold `t`
      percent exactly when the close is at least `(100 + t) / 100` times the
      open. */
  lemma ChangeAtLeastIff(h: seq<Bar>, t: real)
    requires |h| > 0 && h[0].open > 0.0
    ensures PercentChange(h) >= t <==> 100.0 * h[|h| - 1].close >= (100.0 + t) * h[0].open
  {
    var o, c := h[0].open, h[|h| - 1].close;
    var r := PercentChange(h);
    assert r * o == 100.0 * (c - o);
    assert r >= t <==> r * o >= t * o;
  }
}
