# KOSPI investor-flow updater, modelled in Dafny

`scripts/update_latest_data.py` refreshes the data file behind a KOSPI
investor-flow dashboard. It reads several pages of daily KOSPI prices and
merges them into one row per trading date, the last row seen winning. It
then asks the trend endpoint for each distinct trading day, keyed by
"bizdate" (`YYYYMMDD`). From the answers it builds one investor-flow row per
day: individual, foreign and institutional net buying parsed from text,
financial investment copying the institutional figure, five fixed-zero
classes, and other corporations balancing the day to zero. Last comes a
payload whose metadata names the latest trading date. With no dated prices
it raises instead.

This project models that pipeline with the network replies as inputs:

- `wrappers.dfy`: `Option` and `Result`.
- `text.dfy`: Python's `str.replace(c, "")` and `str.strip()`.
- `numbers.dfy`: `parse_number`, with the decimal grammar it accepts and the
  grouped-numeral round trip.
- `ordering.dfy`: Python's string order and its stable `sorted`, written
  as an insertion sort.
- `dates.dfy`: `to_bizdate` and the ISO-date/bizdate correspondence.
- `prices.dfy`: the `seen`-dictionary merge of `fetch_prices`, as a method
  with loops over the fetched pages.
- `rows.dfy`: `build_rows`, as a method with its append loop and the
  final sort.
- `pipeline.dfy`: the bizdate list and `latest_date` of `main`, the map
  `fetch_trend_map` produces, and `main` itself as `Update`, which returns
  the payload or the error.

JSON objects are maps from field names to the text of their values. A page
is either a JSON array of such objects or some other JSON value. The trend
endpoint is a function from bizdate to an optional object; `None` stands for
a failed request or a reply that is not an object.

## Model

| member | source | states |
|---|---|---|
| Text.WithoutCounts | scripts/update_latest_data.py:29 | `replace(c, "")` deletes exactly the occurrences of `c`: every other character keeps its count and the length drops by the count of `c` |
| Text.WithoutAppend | scripts/update_latest_data.py:29 | deleting a character from a concatenation deletes it from each part, order kept |
| Text.WithoutAbsent | scripts/update_latest_data.py:29 | deleting a character that does not occur leaves the text unchanged |
| Text.StripLeading | scripts/update_latest_data.py:29 | the result is a suffix of the input, everything dropped is whitespace, and it does not start with whitespace |
| Text.StripTrailing | scripts/update_latest_data.py:29 | the result is a prefix of the input, everything dropped is whitespace, and it does not end with whitespace |
| Text.StripTrimmed | scripts/update_latest_data.py:29 | `strip()` leaves text alone when it starts and ends with non-whitespace |
| Text.StripBlank | scripts/update_latest_data.py:29 | `strip()` turns whitespace-only text into the empty string |
| Numbers.ParseNumber | scripts/update_latest_data.py:26-35 | a missing value gives 0; text that is empty after deleting `,` and `+` and stripping gives 0 |
| Numbers.ParseUnsignedAccepts | scripts/update_latest_data.py:33 | the unsigned reader succeeds exactly on digits-and-point text with at least one digit and at most one point |
| Numbers.ParseDecimalAccepts | scripts/update_latest_data.py:32-35 | the signed reader succeeds exactly on numerals, an optional `-` followed by an unsigned numeral |
| Numbers.NonNumeralIsZero | scripts/update_latest_data.py:32-35 | text that is not a numeral after normalisation ("abc", "--", "1.2.3") gives 0 instead of an error |
| Numbers.BlankIsZero | scripts/update_latest_data.py:29-31 | text made only of whitespace, commas and plus signs gives 0 |
| Numbers.MarkIgnored | scripts/update_latest_data.py:29 | inserting a `,` or `+` at any position never changes the result |
| Numbers.FormattedRoundTrip | scripts/update_latest_data.py:29-33 | every integer written with comma-grouped thousands and a `-` for negatives ("1,234", "-1,200") reads back as itself, under the exact decimal reading (no float rounding or overflow) |
| Numbers.FractionTruncated | scripts/update_latest_data.py:33 | a grouped integer followed by a point and digits reads as the integer: the fraction is truncated toward zero, under the exact decimal reading (no float rounding) |
| Numbers.LeadingMinusKept | scripts/update_latest_data.py:29-33 | a leading `-` before an unsigned numeral negates its reading, which is never negative |
| Numbers.ShowValue | scripts/update_latest_data.py:33 | the decimal digits of a natural number read back as that number |
| Numbers.UngroupedValue | scripts/update_latest_data.py:29-33 | deleting the commas from a grouped numeral leaves digits whose value is the number |
| Ordering.LessIrreflexive | scripts/update_latest_data.py:59 | no string sorts before itself under Python's string order |
| Ordering.LessTransitive | scripts/update_latest_data.py:59 | Python's string order is transitive |
| Ordering.LessTrichotomy | scripts/update_latest_data.py:59 | any two strings are equal or one sorts before the other |
| Ordering.LessConcat | scripts/update_latest_data.py:125 | strings made of blocks of equal length compare block by block |
| Ordering.SortBy | scripts/update_latest_data.py:116 | `sorted` / `list.sort` return a permutation of their input |
| Ordering.InsertSorted | scripts/update_latest_data.py:116 | inserting one element into a sorted list keeps it sorted |
| Ordering.SortBySorted | scripts/update_latest_data.py:116 | the result of the sort ascends by its key |
| Ordering.SortByStrictlyAscending | scripts/update_latest_data.py:116 | sorting a list whose keys already strictly ascend returns it unchanged |
| Ordering.DistinctPermutation | scripts/update_latest_data.py:59 | a permutation of a list without repeats has no repeats |
| Ordering.SortByMembers | scripts/update_latest_data.py:125 | sorting keeps exactly the same members |
| Ordering.SortedDistinctAscending | scripts/update_latest_data.py:125 | sorted strings without repeats strictly ascend |
| Ordering.Dedup | scripts/update_latest_data.py:125 | the set comprehension: no element twice, and exactly the members of the input |
| Ordering.ReverseDescends | scripts/update_latest_data.py:125 | `reverse=True` on strictly ascending strings gives them newest first: strictly descending |
| Ordering.ReverseMembers | scripts/update_latest_data.py:125 | reversing keeps exactly the same members |
| Dates.BizdateDropsHyphens | scripts/update_latest_data.py:38-39 | the bizdate has no `-`, every other character keeps its count, and its length is the input length minus the number of hyphens |
| Dates.BizdateAppend | scripts/update_latest_data.py:38-39 | hyphens are deleted piecewise and the remaining characters stay in order |
| Dates.IsoDateBizdate | scripts/update_latest_data.py:38-39 | an ISO `YYYY-MM-DD` date becomes its year, month and day digits run together, an 8-digit bizdate |
| Dates.IsoDateRoundTrip | scripts/update_latest_data.py:38-39 | putting the hyphens back into an ISO date's bizdate gives the date |
| Dates.BizdateRoundTrip | scripts/update_latest_data.py:38-39 | every 8-digit bizdate is the bizdate of exactly one ISO date |
| Dates.BizdateInjective | scripts/update_latest_data.py:93-94 | different ISO dates never share a bizdate, so each day looks up its own trend record |
| Dates.BizdateOrder | scripts/update_latest_data.py:125 | ISO dates and their bizdates sort in the same order |
| Prices.DateSetSnoc | scripts/update_latest_data.py:54-57 | one more row adds its date, if it has one, to the dates seen |
| Prices.AbsorbKeys | scripts/update_latest_data.py:54-57 | after the loop, `seen` has exactly one key per non-empty `localTradedAt` among the rows |
| Prices.AbsorbLastWins | scripts/update_latest_data.py:54-57 | each entry of `seen` is a row with its own key as date, and no later row carries that date: the last write wins |
| Prices.AbsorbRows | scripts/update_latest_data.py:54-57 | the inner loop over one array page leaves `seen` equal to the dictionary of all rows so far written in order, and `order` lists each of its keys exactly once |
| Prices.InKeyOrderMerges | scripts/update_latest_data.py:59 | reading `seen` in sorted key order gives dated rows, strictly ascending by date, one per date, each the last of its date |
| Prices.MergePages | scripts/update_latest_data.py:46-59 | over the fetched pages, skipping those that are not arrays: every result row is dated, dates strictly ascend, the dates are exactly those on the array pages, and each row is the last seen with its date |
| Rows.FlowRowOf | scripts/update_latest_data.py:96-114 | the row carries its date; financial investment equals institution; insurance, investment trust, bank, other financial and pension are 0; the four flows sum to 0; without the three trend fields the five non-fixed classes are 0 |
| Rows.FlowRowFor | scripts/update_latest_data.py:93-114 | the same shape for the bizdate lookup, and when the date's bizdate has no trend record the five non-fixed classes are 0 |
| Rows.RowCarriesTrend | scripts/update_latest_data.py:96-112 | trend values written as grouped numerals arrive in the row as those numbers, with other corporations at minus their sum |
| Rows.AssembleCount | scripts/update_latest_data.py:88-91 | the append loop emits exactly one row per price with a non-empty date |
| Rows.AssembleDates | scripts/update_latest_data.py:88-114 | the appended rows carry exactly the dates of the dated prices |
| Rows.AssembleRowsForDates | scripts/update_latest_data.py:93-114 | every appended row is the row its own date's trend record gives |
| Rows.AssembleAllDated | scripts/update_latest_data.py:88-114 | when every price is dated, row `i` is the row for price `i`'s date |
| Rows.PermutationKeeps | scripts/update_latest_data.py:116 | reordering the rows keeps their dates and keeps each row the one for its date |
| Rows.BuildRows | scripts/update_latest_data.py:85-117 | the stable date sort of the appended rows: ascending by date, a permutation of one row per dated price, exactly the prices' dates, each row balanced and built from its own date's record |
| Pipeline.RequestedBizdatesDescending | scripts/update_latest_data.py:125 | the requested bizdates strictly descend: newest first, none twice |
| Pipeline.RequestedBizdatesMembers | scripts/update_latest_data.py:125 | a bizdate is requested exactly when some price's date turns into it |
| Pipeline.TrendMap | scripts/update_latest_data.py:62-82 | the map holds only requested bizdates, never with an empty record, and for every requested bizdate `trend_map.get(b, {})` is exactly that bizdate's reply, `{}` when the fetch failed |
| Pipeline.TrendMapHarmless | scripts/update_latest_data.py:80-81 | skipping empty or failed replies changes no row: the row from the map equals the row from the reply itself |
| Pipeline.LatestDate | scripts/update_latest_data.py:129 | with rows present, the latest date is one of their dates and no row's date sorts after it |
| Pipeline.AscendingRows | scripts/update_latest_data.py:116 | for merged prices, the date sort leaves the rows in price order, one per price, strictly ascending |
| Pipeline.RowsUseReplies | scripts/update_latest_data.py:94-98 | every row built for the requested bizdates is the row of its own date's reply |
| Pipeline.Update | scripts/update_latest_data.py:120-138 | fails with "No KOSPI price data returned" exactly when no price row has a date; otherwise the data strictly ascend by date, cover exactly the dates on the price pages, are balanced and built from each date's own reply, the latest trading date is the greatest of them, and the metadata constants are those of the source |

## Left out

- The network: `fetch_json`, the `requests` calls, `HEADERS` and the URLs are not modelled. The fetched price pages and the trend replies are inputs. A failed price request is not caught: its exception escapes `fetch_prices` and `main` (lines 50, 121), so `Pipeline.Update` covers only runs in which every page was fetched, and its one failure is "no dated price row". A failed trend request is absorbed by `fetch_trend` (lines 63-69) and is the `None` reply. `PAGE_SIZE` and `PAGE_COUNT` only shape the requests.
- `fetch_trend`'s exception handling: a failed request and a reply that is not an object are both the `None` reply.
- The `ThreadPoolExecutor` and `as_completed`: the order in which replies land does not matter, because the requested bizdates are distinct. The trend map is modelled as a value, not a loop.
- The clock: `format_kst_now` becomes the `now` parameter of `Pipeline.Update`.
- The JSON serialisation, the output path, the file write and the two closing `print` calls in `main` are not modelled.
- Numbers.ParseNumber: reads only an optional `-` and ASCII digits with at most one point. It leaves out the rest of `float`'s grammar: exponents, `inf`/`nan` (`"inf"` raises an `OverflowError` that the `except ValueError` does not catch), `_` separators and non-ASCII digits.
- Numbers.ParseNumber: reads the decimal text exactly, whereas `int(float(...))` goes through a double. Three consequences are not modelled: values beyond 2^53 round to the nearest double; a fraction with more digits than a double holds can round up to the next integer ("1.9999999999999999" gives 2, the model gives 1); and a numeral of more than about 309 digits becomes `inf`, on which `int` raises an `OverflowError` that the `except ValueError` does not catch, so `parse_number` raises where the model returns the exact value.
- Numbers.FormattedRoundTrip: holds for the exact decimal reading only; with the double in between it fails for values beyond 2^53 and raises for numerals beyond the double range.
- Numbers.FractionTruncated: holds for the exact decimal reading only; with the double in between a long fraction of nines can round up.
- Values are text. A field holding JSON `null` is modelled as an absent key, because `.get` returns `None` for both. For the trend fields, any other non-string value is given as the text `str()` makes of it, as `parse_number` does at line 29.
- A `localTradedAt` that is a non-string JSON value (a number, `true`, `false`) is not modelled: the source tests its truthiness without `str()`, while `Prices.HasDate` sees only text.
- Price rows are objects: a page entry that is not an object, where `row.get` would raise, is not modelled.
- Rows.BuildRows: `rows.sort` sorts the list in place; the model reassigns the sequence, so aliasing of the list is not captured.
- `app.py` and the dashboard's analysis engine are not part of this model.
