/**
 * `main` and `fetch_trend_map`: merge the price pages, request the trend
 * record of every distinct bizdate (newest first), build the flow rows and
 * assemble the payload with its metadata, or fail when no price has a date.
 */
module Pipeline {
  import opened Wrappers
  import opened Ordering
  import opened Dates
  import opened Prices
  import opened Rows

  const Source := "Naver Mobile API (6-hour pipeline)"
  const RefreshIntervalHours := 6
  /** The message of the `RuntimeError` raised when no price rows came back. */
  const NoPriceData := "No KOSPI price data returned"

  datatype Meta = Meta(source: string, updatedAtKst: string, latestTradingDate: string, refreshIntervalHours: int)

  /** The JSON document the pipeline writes. */
  datatype Payload = Payload(meta: Meta, data: seq<FlowRow>)

  /** `to_bizdate(price["localTradedAt"])` for each price, in order. */
  function BizdatesOf(prices: seq<JsonObject>): seq<string>
    requires forall i :: 0 <= i < |prices| ==> DateField in prices[i]
  {
    seq(|prices|, i requires 0 <= i < |prices| && DateField in prices[i] => ToBizdate(prices[i][DateField]))
  }

  /** `sorted({to_bizdate(price["localTradedAt"]) for price in prices}, reverse=True)`. */
  function RequestedBizdates(prices: seq<JsonObject>): seq<string>
    requires forall i :: 0 <= i < |prices| ==> DateField in prices[i]
  {
    Reverse(SortBy(Dedup(BizdatesOf(prices)), Itself))
  }

  /** The bizdates are requested newest first, none twice. */
  lemma RequestedBizdatesDescending(prices: seq<JsonObject>)
    requires forall i :: 0 <= i < |prices| ==> DateField in prices[i]
    ensures var r := RequestedBizdates(prices);
      forall i, j :: 0 <= i < j < |r| ==> Less(r[j], r[i])
  {
    var d := Dedup(BizdatesOf(prices));
    var s := SortBy(d, Itself);
    SortBySorted(d, Itself);
    DistinctPermutation(d, s);
    SortedDistinctAscending(s);
    ReverseDescends(s);
  }

  /** A bizdate is requested exactly when some price's date turns into it. */
  lemma RequestedBizdatesMembers(prices: seq<JsonObject>)
    requires forall i :: 0 <= i < |prices| ==> DateField in prices[i]
    ensures forall b :: b in RequestedBizdates(prices) <==>
      exists i :: 0 <= i < |prices| && b == ToBizdate(prices[i][DateField])
  {
    var all := BizdatesOf(prices);
    SortByMembers(Dedup(all), Itself);
    ReverseMembers(SortBy(Dedup(all), Itself));
    forall b
      ensures b in all <==> exists i :: 0 <= i < |prices| && b == ToBizdate(prices[i][DateField])
    {
      if exists i :: 0 <= i < |prices| && b == ToBizdate(prices[i][DateField]) {
        var i :| 0 <= i < |prices| && b == ToBizdate(prices[i][DateField]);
        assert all[i] == b;
      }
    }
  }

  /** What `fetch_trend(bizdate)` returned: a dictionary, or `None` for a failure or a non-object reply. */
  function FetchedTrend(fetch: string -> Option<JsonObject>, bizdate: string): JsonObject
  {
    match fetch(bizdate)
    case None => map[]
    case Some(trend) => trend
  }

  /**
   * `fetch_trend_map(bizdates)`: the trend record of each requested bizdate
   * whose reply is a non-empty dictionary (`if result:` skips `None` and `{}`).
   */
  function TrendMap(bizdates: seq<string>, fetch: string -> Option<JsonObject>): (r: map<string, JsonObject>)
    ensures forall b :: b in r ==> b in bizdates && r[b] != map[]
    ensures forall b :: b in bizdates ==> (if b in r then r[b] else map[]) == FetchedTrend(fetch, b)
  {
    map b | b in bizdates && fetch(b).Some? && fetch(b).value != map[] :: fetch(b).value
  }

  /**
   * Dropping the `None` and `{}` replies loses nothing: for a requested
   * bizdate, the row built from the map is the row built from the reply
   * itself, read as an empty record when the fetch failed.
   */
  lemma TrendMapHarmless(date: string, bizdates: seq<string>, fetch: string -> Option<JsonObject>)
    requires ToBizdate(date) in bizdates
    ensures FlowRowFor(date, TrendMap(bizdates, fetch)) == FlowRowOf(date, FetchedTrend(fetch, ToBizdate(date)))
  {
  }

  /** `rows[-1]["date"] if rows else prices[-1]["localTradedAt"]`. */
  function LatestDate(rows: seq<FlowRow>, prices: seq<JsonObject>): (r: string)
    requires prices != [] && DateField in prices[|prices| - 1]
    ensures rows != [] ==> r in RowDates(rows)
    ensures rows != [] && SortedBy(rows, RowDate) ==> forall k :: 0 <= k < |rows| ==> LessEq(rows[k].date, r)
  {
    if rows != [] then
      assert rows[|rows| - 1].date in RowDates(rows);
      rows[|rows| - 1].date
    else prices[|prices| - 1][DateField]
  }

  /** Prices in strictly ascending date order give rows in the same order, one per price. */
  lemma AscendingRows(prices: seq<JsonObject>, trendMap: map<string, JsonObject>)
    requires forall i :: 0 <= i < |prices| ==> HasDate(prices[i])
    requires forall i, j :: 0 <= i < j < |prices| ==> Less(DateOf(prices[i]), DateOf(prices[j]))
    ensures var rows := SortBy(Assemble(prices, trendMap), RowDate);
      && |rows| == |prices|
      && (forall k :: 0 <= k < |rows| ==> rows[k].date == DateOf(prices[k]))
      && StrictlyAscendingBy(rows, RowDate)
  {
    AssembleAllDated(prices, trendMap);
    SortByStrictlyAscending(Assemble(prices, trendMap), RowDate);
  }

  /** Each row built for the requested bizdates is the row of its date's own trend reply. */
  lemma RowsUseReplies(prices: seq<JsonObject>, fetch: string -> Option<JsonObject>, rows: seq<FlowRow>)
    requires forall i :: 0 <= i < |prices| ==> DateField in prices[i]
    requires |rows| == |prices| && forall k :: 0 <= k < |rows| ==> rows[k].date == prices[k][DateField]
    requires RowsForDates(rows, TrendMap(RequestedBizdates(prices), fetch))
    ensures forall k :: 0 <= k < |rows| ==>
      rows[k] == FlowRowOf(rows[k].date, FetchedTrend(fetch, ToBizdate(rows[k].date)))
  {
    var bizdates := RequestedBizdates(prices);
    RequestedBizdatesMembers(prices);
    forall k | 0 <= k < |rows|
      ensures rows[k] == FlowRowOf(rows[k].date, FetchedTrend(fetch, ToBizdate(rows[k].date)))
    {
      assert ToBizdate(prices[k][DateField]) in bizdates;
      TrendMapHarmless(rows[k].date, bizdates, fetch);
    }
  }

  /**
   * What a successful run promises about its payload: the rows strictly
   * ascend by date and cover exactly the dates on the price pages; each row
   * is balanced and built from its own date's trend reply; the latest
   * trading date is the greatest of the row dates; and the metadata holds the
   * constants `main` writes (`Source`, `RefreshIntervalHours`).
   */
  ghost predicate Publishable(p: Payload, pages: seq<Page>, fetch: string -> Option<JsonObject>, now: string)
  {
    && p.meta.source == Source && p.meta.updatedAtKst == now
    && p.meta.refreshIntervalHours == RefreshIntervalHours
    && StrictlyAscendingBy(p.data, RowDate)
    && RowDates(p.data) == DateSet(Flatten(pages))
    && (forall k :: 0 <= k < |p.data| ==>
          Balanced(p.data[k]) && p.data[k] == FlowRowOf(p.data[k].date, FetchedTrend(fetch, ToBizdate(p.data[k].date))))
    && p.meta.latestTradingDate in RowDates(p.data)
    && (forall k :: 0 <= k < |p.data| ==> LessEq(p.data[k].date, p.meta.latestTradingDate))
  }

  /** For strictly ascending rows, the latest date is the last row's, the greatest. */
  lemma LatestIsGreatest(rows: seq<FlowRow>, prices: seq<JsonObject>)
    requires prices != [] && DateField in prices[|prices| - 1]
    requires rows != [] && StrictlyAscendingBy(rows, RowDate)
    ensures LatestDate(rows, prices) in RowDates(rows)
    ensures forall k :: 0 <= k < |rows| ==> LessEq(rows[k].date, LatestDate(rows, prices))
  {
    forall k | 0 <= k < |rows| - 1
      ensures Less(rows[k].date, rows[|rows| - 1].date)
    {
      assert Less(RowDate(rows[k]), RowDate(rows[|rows| - 1]));
    }
  }

  /** The payload `main` assembles from merged prices and the rows built for them is publishable. */
  lemma PayloadPublishable(pages: seq<Page>, fetch: string -> Option<JsonObject>, now: string,
                           prices: seq<JsonObject>, rows: seq<FlowRow>)
    requires prices != []
    requires forall i :: 0 <= i < |prices| ==> HasDate(prices[i]) && DateField in prices[i]
    requires forall i, j :: 0 <= i < j < |prices| ==> Less(DateOf(prices[i]), DateOf(prices[j]))
    requires DateSet(prices) == DateSet(Flatten(pages))
    requires rows == SortBy(Assemble(prices, TrendMap(RequestedBizdates(prices), fetch)), RowDate)
    requires RowsForDates(rows, TrendMap(RequestedBizdates(prices), fetch))
    requires RowDates(rows) == DateSet(prices)
    ensures Publishable(Payload(Meta(Source, now, LatestDate(rows, prices), RefreshIntervalHours), rows), pages, fetch, now)
  {
    var trendMap := TrendMap(RequestedBizdates(prices), fetch);
    AscendingRows(prices, trendMap);
    assert forall k :: 0 <= k < |rows| ==> rows[k].date == prices[k][DateField];
    RowsUseReplies(prices, fetch, rows);
    assert forall k :: 0 <= k < |rows| ==> Balanced(rows[k]) by {
      forall k | 0 <= k < |rows|
        ensures Balanced(rows[k])
      {
        assert rows[k] == FlowRowFor(rows[k].date, trendMap);
      }
    }
    LatestIsGreatest(rows, prices);
    var p := Payload(Meta(Source, now, LatestDate(rows, prices), RefreshIntervalHours), rows);
    assert p.data == rows;
  }

  /** No dated prices leaves no dates; some dated price leaves its date. */
  lemma PricesDates(prices: seq<JsonObject>)
    requires forall i :: 0 <= i < |prices| ==> HasDate(prices[i])
    ensures prices == [] <==> DateSet(prices) == {}
  {
    if prices != [] {
      assert DateOf(prices[0]) in DateSet(prices);
    }
  }

  /**
   * `main` without the clock and the file write: the payload for the pages
   * and trend replies, or the `RuntimeError` when no price row has a date.
   */
  method Update(pages: seq<Page>, fetch: string -> Option<JsonObject>, now: string) returns (r: Result<Payload>)
    ensures r.Failure? <==> DateSet(Flatten(pages)) == {}
    ensures r.Failure? ==> r.error == NoPriceData
    ensures r.Success? ==> Publishable(r.value, pages, fetch, now)
  {
    var prices := MergePages(pages);
    PricesDates(prices);
    if prices == [] {
      return Failure(NoPriceData);
    }
    var bizdates := RequestedBizdates(prices);
    var trendMap := TrendMap(bizdates, fetch);
    var rows := BuildRows(prices, trendMap);
    var latest := LatestDate(rows, prices);
    PayloadPublishable(pages, fetch, now, prices, rows);
    r := Success(Payload(Meta(Source, now, latest, RefreshIntervalHours), rows));
  }
}
