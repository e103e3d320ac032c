# Performance stock list writer, modelled in Dafny

`performance-stock-list-writer.py` runs forever. On each pass of its loop it
decides whether to scan. A scan reads a watch-list of ticker symbols and
fetches five price histories per symbol (1 day, 1 week, 14 days, 1 month,
1 year). It computes four short-window percentage changes and a
monthly-change map over the current and two previous calendar months. It
keeps the symbols that gained in every month and by at least 1% in every
short window. It ranks those by 1-day change and writes the top 28 to an
output list. After each pass the program sleeps until the next wake time.

This project keeps the decision logic between the fetches, file accesses
and sleeps as pure functions and proves properties about them:

| file | module | what it models |
|---|---|---|
| `prices.dfy` | `Prices` | bars and the window percentage change, with 0 for an empty window |
| `monthly.dfy` | `Monthly` | month buckets with year rollover, bucket filtering, and the monthly change map |
| `records.dfy` | `Records` | the per-symbol record, and the insertion-ordered `stock_data` dictionary |
| `selection.dfy` | `Selection` | the inclusion test, the stable descending sort, and the cut to 28 |
| `listformat.dfy` | `ListFormat` | reading the input list (`strip`, blank lines dropped) and writing the output list |
| `scheduler.dfy` | `Scheduler` | eligibility, the run counter, the next-run time, and the loop as a sequence of passes |
| `pipeline.dfy` | `Pipeline` | one eligible cycle, from input text and fetched histories to output text |

Modelling choices:

- Prices are exact `real`s.
- A bar's timestamp is reduced to its calendar month and year. Those are
  the only parts of the timestamp the program reads.
- Local time is a day number plus microseconds since midnight. Day 0 is a
  Monday, so `day % 7` is Python's `weekday()`.
- The histories the program would fetch are inputs, and so is the current
  time. The histories of the i-th listed symbol are `fetched[i]`.

Behaviour of the code worth noting:

- The filter looks up the monthly map under the raw keys `m`, `m - 1` and
  `m - 2`. The extractor stores keys rolled over into 1..12. So in January
  and February no symbol can pass, and the output list is empty
  (`Selection.NothingPassesInJanuaryOrFebruary`, `Pipeline.Cycle`).
- After the end time, the next wake is 08:30 on the date of
  `now + 1 day 30 min`. This is 08:30 the next day, or the day after that
  when `now` is 23:30 or later. The 30 minutes only move the date; they are
  not a buffer added to the start time.
- Equal 1-day changes keep their dictionary order. The filter walks the
  dictionary in insertion order (`Selection.FilterInKeyOrder`), and
  Python's sort is stable even with `reverse=True` (`Selection.SortStable`).
  So among tied symbols, the ones assigned first are ranked first, and they
  are the ones kept at the cut (`Selection.RankTiesInKeyOrder`).

## Model

| member | source | states |
|---|---|---|
| `Prices.PercentChange` | performance-stock-list-writer.py:65-70 | an empty window gives exactly 0; otherwise the result times the first open equals 100 times (last close minus first open) |
| `Prices.PositiveChangeIffRise` | performance-stock-list-writer.py:123-125 | with a positive first open, the change is positive exactly when the last close is above the first open |
| `Prices.ChangeAtLeastIff` | performance-stock-list-writer.py:126-129 | with a positive first open, the change reaches t percent exactly when 100 times the close is at least (100 + t) times the open |
| `Monthly.Resolve` | performance-stock-list-writer.py:15-19 | a raw month index in -1..12 resolves to a month in 1..12; the year drops by one exactly when the raw index is 0 or less; the absolute month count is unchanged |
| `Monthly.Buckets` | performance-stock-list-writer.py:14-19 | three buckets, each with a month in 1..12; bucket k lies exactly 2 - k months before the current month; the months are pairwise distinct; the year is the previous one exactly when the raw index is 0 or less |
| `Monthly.JanuaryBuckets` | performance-stock-list-writer.py:14-19 | in January the buckets are November and December of the previous year, then January |
| `Monthly.InBucket` | performance-stock-list-writer.py:22 | no longer than the history; empty exactly when no bar of the history falls in that month and year |
| `Monthly.InBucketMembers` | performance-stock-list-writer.py:22 | a bar is in the bucket exactly when it is in the history and falls in that month and year |
| `Monthly.FirstOfBucket` | performance-stock-list-writer.py:22-25 | the bucket's first bar is the earliest bar of the history in that month |
| `Monthly.LastOfBucket` | performance-stock-list-writer.py:22-26 | the bucket's last bar is the latest bar of the history in that month |
| `Monthly.MonthlyChanges` | performance-stock-list-writer.py:7-30 | at most 3 keys, all among the bucket months; a bucket's month is a key exactly when the bucket holds bars, so empty buckets are absent rather than 0; its value is that bucket's first-open to last-close change |
| `Monthly.MonthlyAt` | performance-stock-list-writer.py:21-28 | one bucket's entry: present exactly when the bucket has bars, and then equal to the bucket's change |
| `Records.Evaluate` | performance-stock-list-writer.py:61-110 | each of the four short windows independently gives the sentinel 0 when its history is empty, and otherwise a change that, times the first open, equals 100 times (last close minus first open); the monthly map has at most 3 entries and records each calendar bucket's change exactly when that bucket has bars |
| `Records.Put` | performance-stock-list-writer.py:104-110 | dictionary assignment: an existing key keeps its position and takes the new value, a new key is appended, other entries are unchanged, and keys stay distinct |
| `Records.Collect` | performance-stock-list-writer.py:54-110 | the dictionary has distinct keys, the same key set as the listed symbols, keys in first-occurrence order, and only entries that were assigned |
| `Records.CollectKeepsLast` | performance-stock-list-writer.py:104-110 | a symbol listed twice keeps the record of its last listing |
| `Selection.Filter` | performance-stock-list-writer.py:117-131 | an entry's (symbol, 1-day change) pair is in the result exactly when the entry passes the test; the result holds only such pairs, each symbol at most once, and nothing when no entry passes |
| `Selection.FilterInKeyOrder` | performance-stock-list-writer.py:117-131 | the filtered candidates come out in the order their keys stand in the dictionary; together with `Filter`'s contract this fixes the filtered list completely |
| `Selection.RankTiesInKeyOrder` | performance-stock-list-writer.py:117-137 | among the ranked candidates with any one 1-day change, the order is dictionary order, and they are the first qualifying entries with that change |
| `Selection.PassesEvaluated` | performance-stock-list-writer.py:119-131 | a record passes exactly when the month is March or later, each of the three buckets has bars and a positive change, and all four window changes are at least 1 (so at exactly 1 it passes, below 1 it fails) |
| `Selection.MonthsRoseIff` | performance-stock-list-writer.py:119-125 | the three monthly lookups are all positive exactly when the month is March or later and all three buckets rose |
| `Selection.RoseIffPositiveEntry` | performance-stock-list-writer.py:120-125 | from March on, bucket k rose exactly when the raw key `m - 2 + k` holds a positive value |
| `Selection.NothingPassesInJanuaryOrFebruary` | performance-stock-list-writer.py:119-125 | in January or February no evaluated record passes |
| `Selection.Insert` | performance-stock-list-writer.py:134 | insertion into a descending list stays descending and adds exactly the one element |
| `Selection.SortDesc` | performance-stock-list-writer.py:134 | the result is non-increasing by 1-day change and is a permutation of the input |
| `Selection.SortSorted` | performance-stock-list-writer.py:134 | sorting a list that is already non-increasing returns it unchanged |
| `Selection.SortStable` | performance-stock-list-writer.py:134 | for every change value, the elements with that value keep their input order |
| `Selection.Rank` | performance-stock-list-writer.py:134-137 | the length is min(28, n); the result is non-increasing; it is a sub-multiset of the input; every input element left out has a change no higher than any kept element |
| `Selection.RankSortedShort` | performance-stock-list-writer.py:134-137 | a non-increasing list of at most 28 candidates is its own ranking |
| `Selection.RankStable` | performance-stock-list-writer.py:134-137 | after the cut, the kept elements with any one change value are a leading part of the input's elements with that value |
| `Selection.RankDistinct` | performance-stock-list-writer.py:134-137 | ranking distinct symbols names each symbol at most once |
| `Selection.RankedEntry` | performance-stock-list-writer.py:117-137 | every ranked candidate is a dictionary entry that passes the test |
| `Selection.NothingRankedWhenNonePasses` | performance-stock-list-writer.py:117-137 | when no assigned record passes, the ranking is empty |
| `Selection.RankAssignments` | performance-stock-list-writer.py:117-137 | the ranked symbols are distinct and all drawn from the assignments |
| `Selection.ThreeSymbolExample` | performance-stock-list-writer.py:117-137 | A at 5% and B at 2% pass and C fails its 14-day window, so the ranking is exactly A then B |
| `ListFormat.Strip` | performance-stock-list-writer.py:51 | the result is a slice of the input with only whitespace around it, and does not begin or end with whitespace |
| `ListFormat.Lines` | performance-stock-list-writer.py:50-51 | no line holds a line break |
| `ListFormat.RenderLines` | performance-stock-list-writer.py:50-51 | for text without carriage returns, writing its lines back each followed by a newline restores the text, with a final newline added if it had none |
| `ListFormat.Parse` | performance-stock-list-writer.py:50-51 | every symbol read is non-empty, already stripped, and on one line, so it can be written back unchanged |
| `ListFormat.ParseLine` | performance-stock-list-writer.py:50-51 | the text before the first line end (`\n` or `\r`) adds its stripped text, if not empty, ahead of what the rest reads as; so symbols come out in line order, repeats included |
| `ListFormat.ParseLastLine` | performance-stock-list-writer.py:50-51 | a final line without a line end adds its stripped text if not empty; empty text reads as no symbols |
| `ListFormat.RepeatedSymbolRead` | performance-stock-list-writer.py:50-51 | `"A\r\nA"` reads as `A` twice: repeats are kept and the empty line a `\r\n` pair leaves is dropped |
| `ListFormat.KeepStrippedComplete` | performance-stock-list-writer.py:51 | every line whose stripped text is not empty contributes that text |
| `ListFormat.KeepStrippedSound` | performance-stock-list-writer.py:51 | every kept symbol is the stripped text of some line |
| `ListFormat.ParseKeepsLines` | performance-stock-list-writer.py:50-51 | a string is read as a symbol exactly when it is the non-empty stripped text of some line (membership only; order and repeats are fixed by `ParseLine` and `ParseLastLine`) |
| `ListFormat.Render` | performance-stock-list-writer.py:140-142 | a non-empty list ends in a newline |
| `ListFormat.ParseAfterLine` | performance-stock-list-writer.py:140-142 | reading a writable symbol, a newline and more text gives that symbol ahead of what the rest reads as |
| `ListFormat.ParseRender` | performance-stock-list-writer.py:140-142 | writing non-empty, stripped, one-line symbols and reading them back gives the same list |
| `Scheduler.TimelineRoundTrip` | performance-stock-list-writer.py:150-153 | a moment converted to absolute time and back is unchanged |
| `Scheduler.NextRun` | performance-stock-list-writer.py:148-154 | after the end time, the wake is 08:30:00 on day + 1, or day + 2 from 23:30 on; otherwise the wake is on a whole minute, more than 240 s and at most 300 s later |
| `Scheduler.NextRunIsLater` | performance-stock-list-writer.py:160-162 | the sleep before the next run is strictly positive |
| `Scheduler.Step` | performance-stock-list-writer.py:40-169 | a pass scans exactly when the run count is 1 or it is a weekday within 08:30-15:59 inclusive; the count rises by one exactly on scanning passes, even when the scan fails; a failed scan sleeps 300 s, any other pass sleeps until the next run, and the sleep is always positive |
| `Scheduler.ScansAfterBootstrap` | performance-stock-list-writer.py:45-47 | once the count is past 1, a pass scans exactly in market hours |
| `Scheduler.BootstrapOnce` | performance-stock-list-writer.py:37-47 | from a fresh start, the first pass scans regardless of day and time, and every later pass scans exactly in market hours |
| `Scheduler.CountTracksScans` | performance-stock-list-writer.py:45-47 | the final run count is the start count plus the number of scanning passes |
| `Pipeline.RankedFromInput` | performance-stock-list-writer.py:49-137 | the ranked symbols are distinct and all come from the input list; in January and February nothing is ranked |
| `Pipeline.Cycle` | performance-stock-list-writer.py:49-142 | the output text reads back as the ranked symbols: at most 28, distinct, each from the input list, and empty in January and February |

## Left out

- Fetching (`yf.Ticker`, `stock.history`) is left out. Each history is an
  input sequence of bars. A fetch that raises is the `faulted` flag of a
  scheduler pass.
- pandas indexing is left out. A history is a plain sequence in
  chronological order.
- Time zones are left out. The `US/Eastern` conversion and daylight-saving
  effects of `replace` and `timedelta` are not modelled; local time is plain
  integers.
- The sleeps are left out: the 2 s per-symbol delay, the wait until the
  next run, and the 300 s backoff. Only their durations are computed
  (`Scheduler.Step`).
- File opening, reading and writing are left out. Only the text content of
  the input and output lists is modelled.
- `print` logging is left out.
- The exception handler is modelled only as a pass that keeps the
  incremented run count and sleeps 300 s. Only a failing scan raises, since
  the next-run computation and sleep are proved not to.
- Floating point is left out. Changes are exact reals, so the `> 0` and
  `>= 1` thresholds are stated over exact values.
- `Prices.PercentChange`: requires a non-zero first open when the window is
  not empty. numpy would return an infinity or NaN there, which exact reals
  cannot represent.
- `Monthly.MonthlyChanges`: requires the same of each non-empty bucket, for
  the same reason.
- Python's universal-newline reading is modelled by treating both `\r` and
  `\n` as line ends. A `\r\n` pair then yields an extra empty line, which is
  dropped just as Python drops blank lines.
