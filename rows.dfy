/**
 * `build_rows`: one investor-flow row per dated price row, filled from the
 * trend record of its bizdate, then sorted by date.
 */
module Rows {
  import opened Wrappers
  import opened Ordering
  import opened Numbers
  import opened Dates
  import opened Prices

  /**
   * One day of net buying by investor class. The API reports only
   * individuals, foreigners and institutions; financial investment copies
   * the institutional figure, five classes are always 0, and other
   * corporations take whatever balances the day to zero.
   */
  datatype FlowRow = FlowRow(
    date: string,
    individual: int,
    foreign: int,
    institution: int,
    financialInvestment: int,
    insurance: int,
    investmentTrust: int,
    bank: int,
    otherFinancial: int,
    pension: int,
    otherCorporation: int)

  /** The shape every emitted row has. */
  predicate Balanced(r: FlowRow)
  {
    && r.financialInvestment == r.institution
    && r.insurance == 0 && r.investmentTrust == 0 && r.bank == 0
    && r.otherFinancial == 0 && r.pension == 0
    && r.individual + r.foreign + r.institution + r.otherCorporation == 0
  }

  /** The sort key `x["date"]`. */
  function RowDate(r: FlowRow): string
  {
    r.date
  }

  /** The row for `date` built from one trend record. */
  function FlowRowOf(date: string, trend: JsonObject): (r: FlowRow)
    ensures r.date == date && Balanced(r)
    ensures "personalValue" !in trend && "foreignValue" !in trend && "institutionalValue" !in trend ==>
      r.individual == 0 && r.foreign == 0 && r.institution == 0 &&
      r.financialInvestment == 0 && r.otherCorporation == 0
  {
    var individual := ParseNumber(Get(trend, "personalValue"));
    var foreign := ParseNumber(Get(trend, "foreignValue"));
    var institution := ParseNumber(Get(trend, "institutionalValue"));
    FlowRow(date, individual, foreign, institution, institution, 0, 0, 0, 0, 0,
            -(individual + foreign + institution))
  }

  /** The row for `date`, looking its bizdate up with `trend_map.get(bizdate, {})`. */
  function FlowRowFor(date: string, trendMap: map<string, JsonObject>): (r: FlowRow)
    ensures r.date == date && Balanced(r)
    ensures ToBizdate(date) !in trendMap ==>
      r.individual == 0 && r.foreign == 0 && r.institution == 0 &&
      r.financialInvestment == 0 && r.otherCorporation == 0
  {
    var bizdate := ToBizdate(date);
    FlowRowOf(date, if bizdate in trendMap then trendMap[bizdate] else map[])
  }

  /**
   * A trend record whose three values are grouped numerals carries those
   * numbers into the row, and other corporations get minus their sum.
   */
  lemma RowCarriesTrend(date: string, trend: JsonObject, personal: int, foreign: int, institutional: int)
    requires Get(trend, "personalValue") == Some(FormatGrouped(personal))
    requires Get(trend, "foreignValue") == Some(FormatGrouped(foreign))
    requires Get(trend, "institutionalValue") == Some(FormatGrouped(institutional))
    ensures var r := FlowRowOf(date, trend);
      && r.individual == personal && r.foreign == foreign && r.institution == institutional
      && r.financialInvestment == institutional
      && r.otherCorporation == -(personal + foreign + institutional)
  {
    FormattedRoundTrip(personal);
    FormattedRoundTrip(foreign);
    FormattedRoundTrip(institutional);
  }

  /** The rows appended by the loop of `build_rows`, before the sort. */
  function Assemble(prices: seq<JsonObject>, trendMap: map<string, JsonObject>): seq<FlowRow>
  {
    if prices == [] then []
    else
      var init, price := prices[..|prices| - 1], prices[|prices| - 1];
      if HasDate(price) then Assemble(init, trendMap) + [FlowRowFor(DateOf(price), trendMap)]
      else Assemble(init, trendMap)
  }

  /** How many price rows have a date. */
  function CountDated(prices: seq<JsonObject>): nat
  {
    if prices == [] then 0
    else CountDated(prices[..|prices| - 1]) + (if HasDate(prices[|prices| - 1]) then 1 else 0)
  }

  lemma AssembleSnoc(prices: seq<JsonObject>, price: JsonObject, trendMap: map<string, JsonObject>)
    ensures Assemble(prices + [price], trendMap) ==
      Assemble(prices, trendMap) + (if HasDate(price) then [FlowRowFor(DateOf(price), trendMap)] else [])
    ensures CountDated(prices + [price]) == CountDated(prices) + (if HasDate(price) then 1 else 0)
  {
    assert (prices + [price])[..|prices|] == prices;
  }

  /** The dates the rows carry. */
  ghost function RowDates(rows: seq<FlowRow>): set<string>
  {
    set k | 0 <= k < |rows| :: rows[k].date
  }

  /** Each row is the row its own date's trend record gives. */
  ghost predicate RowsForDates(rows: seq<FlowRow>, trendMap: map<string, JsonObject>)
  {
    forall k :: 0 <= k < |rows| ==> rows[k] == FlowRowFor(rows[k].date, trendMap)
  }

  lemma RowDatesSnoc(rows: seq<FlowRow>, extra: seq<FlowRow>)
    requires |extra| <= 1
    ensures RowDates(rows + extra) == RowDates(rows) + RowDates(extra)
  {
    var all := rows + extra;
    forall d | d in RowDates(all)
      ensures d in RowDates(rows) + RowDates(extra)
    {
      var k :| 0 <= k < |all| && all[k].date == d;
      if k < |rows| {
        assert rows[k] == all[k];
      } else {
        assert extra[k - |rows|] == all[k];
      }
    }
    forall d | d in RowDates(rows) + RowDates(extra)
      ensures d in RowDates(all)
    {
      if d in RowDates(rows) {
        var k :| 0 <= k < |rows| && rows[k].date == d;
        assert all[k] == rows[k];
      } else {
        var k :| 0 <= k < |extra| && extra[k].date == d;
        assert all[|rows| + k] == extra[k];
      }
    }
  }

  lemma {:induction false} AssembleCount(prices: seq<JsonObject>, trendMap: map<string, JsonObject>)
    ensures |Assemble(prices, trendMap)| == CountDated(prices)
  {
    if prices != [] {
      var init, price := prices[..|prices| - 1], prices[|prices| - 1];
      AssembleCount(init, trendMap);
      AssembleSnoc(init, price, trendMap);
      assert prices == init + [price];
    }
  }

  /** The loop emits a row for each date among the dated prices, and for no other date. */
  lemma {:induction false} AssembleDates(prices: seq<JsonObject>, trendMap: map<string, JsonObject>)
    ensures RowDates(Assemble(prices, trendMap)) == DateSet(prices)
  {
    if prices != [] {
      var init, price := prices[..|prices| - 1], prices[|prices| - 1];
      AssembleDates(init, trendMap);
      AssembleSnoc(init, price, trendMap);
      DateSetSnoc(init, price);
      assert prices == init + [price];
      var extra := if HasDate(price) then [FlowRowFor(DateOf(price), trendMap)] else [];
      RowDatesSnoc(Assemble(init, trendMap), extra);
      assert RowDates(extra) == (if HasDate(price) then {DateOf(price)} else {}) by {
        if HasDate(price) {
          assert extra[0].date == DateOf(price);
        }
      }
    }
  }

  /** Each row the loop emits is the row for its date. */
  lemma {:induction false} AssembleRowsForDates(prices: seq<JsonObject>, trendMap: map<string, JsonObject>)
    ensures RowsForDates(Assemble(prices, trendMap), trendMap)
  {
    if prices != [] {
      var init, price := prices[..|prices| - 1], prices[|prices| - 1];
      AssembleRowsForDates(init, trendMap);
      AssembleSnoc(init, price, trendMap);
      var rows, before := Assemble(prices, trendMap), Assemble(init, trendMap);
      forall k | 0 <= k < |rows|
        ensures rows[k] == FlowRowFor(rows[k].date, trendMap)
      {
        if k < |before| {
          assert rows[k] == before[k];
        }
      }
    }
  }

  lemma InPermutation(a: seq<FlowRow>, b: seq<FlowRow>, k: nat) returns (j: nat)
    requires multiset(a) == multiset(b) && k < |b|
    ensures j < |a| && a[j] == b[k]
  {
    assert b[k] in multiset(a);
    assert b[k] in a;
    j :| 0 <= j < |a| && a[j] == b[k];
  }

  /** Reordering rows keeps their dates and keeps each row the one for its date. */
  lemma PermutationKeeps(a: seq<FlowRow>, b: seq<FlowRow>, trendMap: map<string, JsonObject>)
    requires multiset(a) == multiset(b)
    requires RowsForDates(a, trendMap)
    ensures RowsForDates(b, trendMap) && RowDates(b) == RowDates(a)
  {
    forall k | 0 <= k < |b|
      ensures b[k] == FlowRowFor(b[k].date, trendMap) && b[k].date in RowDates(a)
    {
      var j := InPermutation(a, b, k);
    }
    forall d | d in RowDates(a)
      ensures d in RowDates(b)
    {
      var j :| 0 <= j < |a| && a[j].date == d;
      var k := InPermutation(b, a, j);
    }
  }

  /** When every price has a date, the loop maps prices to rows position by position. */
  lemma {:induction false} AssembleAllDated(prices: seq<JsonObject>, trendMap: map<string, JsonObject>)
    requires forall i :: 0 <= i < |prices| ==> HasDate(prices[i])
    ensures |Assemble(prices, trendMap)| == |prices|
    ensures forall i :: 0 <= i < |prices| ==>
      Assemble(prices, trendMap)[i] == FlowRowFor(DateOf(prices[i]), trendMap)
  {
    if prices != [] {
      var init, price := prices[..|prices| - 1], prices[|prices| - 1];
      AssembleAllDated(init, trendMap);
      AssembleSnoc(init, price, trendMap);
      assert prices == init + [price];
      var rows, before := Assemble(prices, trendMap), Assemble(init, trendMap);
      assert rows == before + [FlowRowFor(DateOf(price), trendMap)];
      forall i | 0 <= i < |prices|
        ensures rows[i] == FlowRowFor(DateOf(prices[i]), trendMap)
      {
        if i < |init| {
          assert rows[i] == before[i] && prices[i] == init[i];
        }
      }
    }
  }

  /**
   * `build_rows`: the rows are the stable sort by date of one row per dated
   * price, so they ascend by date, and each is the balanced row its date's
   * trend record gives.
   */
  method BuildRows(prices: seq<JsonObject>, trendMap: map<string, JsonObject>) returns (rows: seq<FlowRow>)
    ensures rows == SortBy(Assemble(prices, trendMap), RowDate)
    ensures SortedBy(rows, RowDate)
    ensures multiset(rows) == multiset(Assemble(prices, trendMap))
    ensures |rows| == CountDated(prices)
    ensures forall k :: 0 <= k < |rows| ==> Balanced(rows[k]) && rows[k] == FlowRowFor(rows[k].date, trendMap)
    ensures RowDates(rows) == DateSet(prices)
  {
    rows := [];
    for i := 0 to |prices|
      invariant rows == Assemble(prices[..i], trendMap)
    {
      var price := prices[i];
      var date := Get(price, DateField);
      AssembleSnoc(prices[..i], price, trendMap);
      assert prices[..i + 1] == prices[..i] + [price];
      if date.None? || date.value == "" {
        continue;
      }
      rows := rows + [FlowRowFor(date.value, trendMap)];
    }
    assert prices[..|prices|] == prices;
    var assembled := rows;
    AssembleCount(prices, trendMap);
    AssembleDates(prices, trendMap);
    AssembleRowsForDates(prices, trendMap);
    rows := SortBy(rows, RowDate);
    SortBySorted(assembled, RowDate);
    PermutationKeeps(assembled, rows, trendMap);
    assert |multiset(rows)| == |rows|;
  }
}
