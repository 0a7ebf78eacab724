/**
 * The merge inside `fetch_prices`: price rows from several pages of the
 * KOSPI price endpoint are written into a dictionary keyed by their trading
 * date `localTradedAt`, so a date seen again replaces the earlier row, and
 * the rows come back in ascending date order.
 */
module Prices {
  import opened Wrappers
  import opened Ordering

  /** A JSON object from the API, each field's value as its text. */
  type JsonObject = map<string, string>

  /** What one page request returned: a JSON array of price rows, or some other JSON value. */
  datatype Page = JsonArray(rows: seq<JsonObject>) | OtherJson

  /** The field holding a price row's trading date, an ISO `YYYY-MM-DD` string. */
  const DateField := "localTradedAt"

  /** `obj.get(key)`. */
  function Get(obj: JsonObject, key: string): Option<string>
  {
    if key in obj then Some(obj[key]) else None
  }

  /** `row.get("localTradedAt")` is truthy: the field is there and not empty. */
  predicate HasDate(row: JsonObject)
  {
    DateField in row && row[DateField] != ""
  }

  function DateOf(row: JsonObject): string
    requires HasDate(row)
  {
    row[DateField]
  }

  function RowsOf(page: Page): seq<JsonObject>
  {
    match page
    case JsonArray(rows) => rows
    case OtherJson => []
  }

  /** The rows of the pages that are arrays, in page order; other pages contribute nothing. */
  function Flatten(pages: seq<Page>): seq<JsonObject>
  {
    if pages == [] then [] else Flatten(pages[..|pages| - 1]) + RowsOf(pages[|pages| - 1])
  }

  /** The dates that occur among `rows`. */
  ghost function DateSet(rows: seq<JsonObject>): set<string>
  {
    set i | 0 <= i < |rows| && HasDate(rows[i]) :: DateOf(rows[i])
  }

  /** `row` has a date and occurs in `rows` with no later row of the same date. */
  ghost predicate LastOfItsDate(rows: seq<JsonObject>, row: JsonObject)
  {
    HasDate(row) &&
    exists j :: 0 <= j < |rows| && rows[j] == row &&
      forall l :: j < l < |rows| && HasDate(rows[l]) ==> DateOf(rows[l]) != DateOf(row)
  }

  /** One step of the loop: `seen[local_date] = row` when the row has a date. */
  function Put(seen: map<string, JsonObject>, row: JsonObject): map<string, JsonObject>
  {
    if HasDate(row) then seen[DateOf(row) := row] else seen
  }

  /** The dictionary `seen` once `rows` have been written into it in order. */
  function Absorb(rows: seq<JsonObject>): map<string, JsonObject>
  {
    if rows == [] then map[] else Put(Absorb(rows[..|rows| - 1]), rows[|rows| - 1])
  }

  lemma DateSetSnoc(rows: seq<JsonObject>, row: JsonObject)
    ensures DateSet(rows + [row]) == DateSet(rows) + (if HasDate(row) then {DateOf(row)} else {})
  {
    var all := rows + [row];
    forall d | d in DateSet(all)
      ensures d in DateSet(rows) || (HasDate(row) && d == DateOf(row))
    {
      var i :| 0 <= i < |all| && HasDate(all[i]) && DateOf(all[i]) == d;
      if i < |rows| {
        assert all[i] == rows[i];
      }
    }
    forall d | d in DateSet(rows)
      ensures d in DateSet(all)
    {
      var i :| 0 <= i < |rows| && HasDate(rows[i]) && DateOf(rows[i]) == d;
      assert all[i] == rows[i];
    }
    if HasDate(row) {
      assert all[|rows|] == row;
    }
  }

  /** The dictionary holds exactly one entry per date that occurs among the rows. */
  lemma {:induction false} AbsorbKeys(rows: seq<JsonObject>)
    ensures Absorb(rows).Keys == DateSet(rows)
  {
    if rows != [] {
      var init, last := rows[..|rows| - 1], rows[|rows| - 1];
      AbsorbKeys(init);
      DateSetSnoc(init, last);
      assert rows == init + [last];
    }
  }

  /**
   * Each entry is keyed by its own row's date, and that row is the last one
   * with this date: later pages and later positions overwrite earlier ones.
   */
  lemma {:induction false} AbsorbLastWins(rows: seq<JsonObject>)
    ensures forall k :: k in Absorb(rows) ==>
      HasDate(Absorb(rows)[k]) && DateOf(Absorb(rows)[k]) == k && LastOfItsDate(rows, Absorb(rows)[k])
  {
    if rows != [] {
      var init, last := rows[..|rows| - 1], rows[|rows| - 1];
      AbsorbLastWins(init);
      var m := Absorb(rows);
      forall k | k in m
        ensures HasDate(m[k]) && DateOf(m[k]) == k && LastOfItsDate(rows, m[k])
      {
        if HasDate(last) && k == DateOf(last) {
          assert rows[|rows| - 1] == m[k];
        } else {
          var row := Absorb(init)[k];
          assert m[k] == row;
          var j :| 0 <= j < |init| && init[j] == row &&
            forall l :: j < l < |init| && HasDate(init[l]) ==> DateOf(init[l]) != DateOf(row);
          assert rows[j] == row;
          forall l | j < l < |rows| && HasDate(rows[l])
            ensures DateOf(rows[l]) != DateOf(row)
          {
            if l < |init| {
              assert rows[l] == init[l];
            }
          }
        }
      }
    }
  }

  lemma AbsorbSnoc(rows: seq<JsonObject>, row: JsonObject)
    ensures Absorb(rows + [row]) == Put(Absorb(rows), row)
  {
    assert (rows + [row])[..|rows|] == rows;
  }

  lemma FlattenSnoc(pages: seq<Page>, p: nat)
    requires p < |pages|
    ensures Flatten(pages[..p + 1]) == Flatten(pages[..p]) + RowsOf(pages[p])
  {
    assert pages[..p + 1][..p] == pages[..p];
  }

  lemma SortedKeysIn(seen: map<string, JsonObject>, order: seq<string>)
    requires forall k :: k in order <==> k in seen
    ensures forall k :: k in SortBy(order, Itself) <==> k in seen
  {
    var keys := SortBy(order, Itself);
    forall k
      ensures k in keys <==> k in order
    {
      assert k in keys <==> k in multiset(keys);
    }
  }

  /** `[seen[d] for d in sorted(seen)]`, where `order` lists the keys of `seen`. */
  function InKeyOrder(seen: map<string, JsonObject>, order: seq<string>): seq<JsonObject>
    requires forall k :: k in order <==> k in seen
  {
    var keys := SortBy(order, Itself);
    SortedKeysIn(seen, order);
    seq(|keys|, i requires 0 <= i < |keys| => seen[keys[i]])
  }

  /** The sorted keys of `seen` strictly ascend and are exactly its keys. */
  lemma SortedKeysAscend(seen: map<string, JsonObject>, order: seq<string>)
    requires Distinct(order) && forall k :: k in order <==> k in seen
    ensures var keys := SortBy(order, Itself);
      && (forall i, j :: 0 <= i < j < |keys| ==> Less(keys[i], keys[j]))
      && (forall k :: k in keys <==> k in seen)
  {
    var keys := SortBy(order, Itself);
    SortBySorted(order, Itself);
    DistinctPermutation(order, keys);
    SortedDistinctAscending(keys);
    SortedKeysIn(seen, order);
  }

  /** Entry `i` read in key order is the last row dated with the `i`-th sorted key. */
  lemma InKeyOrderEntries(rows: seq<JsonObject>, seen: map<string, JsonObject>, order: seq<string>)
    requires seen == Absorb(rows)
    requires forall k :: k in order <==> k in seen
    ensures var prices, keys := InKeyOrder(seen, order), SortBy(order, Itself);
      && |prices| == |keys|
      && forall i :: 0 <= i < |prices| ==>
           HasDate(prices[i]) && DateOf(prices[i]) == keys[i] && LastOfItsDate(rows, prices[i])
  {
    AbsorbLastWins(rows);
    SortedKeysIn(seen, order);
    var prices, keys := InKeyOrder(seen, order), SortBy(order, Itself);
    forall i | 0 <= i < |prices|
      ensures HasDate(prices[i]) && DateOf(prices[i]) == keys[i] && LastOfItsDate(rows, prices[i])
    {
      assert prices[i] == seen[keys[i]];
    }
  }

  /** The rows read in key order carry exactly the dates of `rows`. */
  lemma InKeyOrderDates(rows: seq<JsonObject>, seen: map<string, JsonObject>, order: seq<string>)
    requires seen == Absorb(rows)
    requires Distinct(order) && forall k :: k in order <==> k in seen
    ensures DateSet(InKeyOrder(seen, order)) == DateSet(rows)
  {
    AbsorbKeys(rows);
    InKeyOrderEntries(rows, seen, order);
    SortedKeysIn(seen, order);
    var prices, keys := InKeyOrder(seen, order), SortBy(order, Itself);
    forall d | d in DateSet(rows)
      ensures d in DateSet(prices)
    {
      var i :| 0 <= i < |keys| && keys[i] == d;
      assert HasDate(prices[i]) && DateOf(prices[i]) == d;
    }
    forall d | d in DateSet(prices)
      ensures d in DateSet(rows)
    {
      var i :| 0 <= i < |prices| && HasDate(prices[i]) && DateOf(prices[i]) == d;
      assert keys[i] in seen;
    }
  }

  /**
   * Reading the merged dictionary in key order gives one row per date of
   * `rows`, in strictly ascending date order, each the last with its date.
   */
  lemma InKeyOrderMerges(rows: seq<JsonObject>, seen: map<string, JsonObject>, order: seq<string>)
    requires seen == Absorb(rows)
    requires Distinct(order) && forall k :: k in order <==> k in seen
    ensures var prices := InKeyOrder(seen, order);
      && (forall i :: 0 <= i < |prices| ==> HasDate(prices[i]))
      && (forall i, j :: 0 <= i < j < |prices| ==> Less(DateOf(prices[i]), DateOf(prices[j])))
      && DateSet(prices) == DateSet(rows)
      && (forall i :: 0 <= i < |prices| ==> LastOfItsDate(rows, prices[i]))
  {
    InKeyOrderEntries(rows, seen, order);
    SortedKeysAscend(seen, order);
    InKeyOrderDates(rows, seen, order);
  }

  /** Recording a key in insertion order keeps `order` a repeat-free list of the keys of `seen`. */
  lemma RecordKey(seen: map<string, JsonObject>, order: seq<string>, k: string, row: JsonObject)
    requires Distinct(order) && forall x :: x in order <==> x in seen
    ensures var order' := if k in seen then order else order + [k];
      Distinct(order') && forall x :: x in order' <==> x in seen[k := row]
  {
  }

  /**
   * The inner loop of `fetch_prices` over one page that is a JSON array:
   * each dated row is written into `seen` under its date, a new date also
   * going to the end of `order`.
   */
  method AbsorbRows(seen: map<string, JsonObject>, order: seq<string>, ghost before: seq<JsonObject>, rows: seq<JsonObject>)
    returns (seen': map<string, JsonObject>, order': seq<string>)
    requires seen == Absorb(before)
    requires Distinct(order) && forall k :: k in order <==> k in seen
    ensures seen' == Absorb(before + rows)
    ensures Distinct(order') && forall k :: k in order' <==> k in seen'
  {
    seen', order' := seen, order;
    assert before + rows[..0] == before;
    for j := 0 to |rows|
      invariant seen' == Absorb(before + rows[..j])
      invariant Distinct(order') && forall k :: k in order' <==> k in seen'
    {
      var row := rows[j];
      ghost var prev := seen';
      AbsorbSnoc(before + rows[..j], row);
      assert before + rows[..j + 1] == (before + rows[..j]) + [row];
      var localDate := Get(row, DateField);
      if localDate.Some? && localDate.value != "" {
        RecordKey(seen', order', localDate.value, row);
        if localDate.value !in seen' {
          order' := order' + [localDate.value];
        }
        seen' := seen'[localDate.value := row];
      }
      assert seen' == Put(prev, row);
    }
    assert rows[..|rows|] == rows;
  }

  /**
   * `fetch_prices` over the pages already fetched: the rows come back in
   * strictly ascending date order, one per date that occurs on the array
   * pages, and each is the last row seen with its date.
   */
  method MergePages(pages: seq<Page>) returns (prices: seq<JsonObject>)
    ensures forall i :: 0 <= i < |prices| ==> HasDate(prices[i])
    ensures forall i, j :: 0 <= i < j < |prices| ==> Less(DateOf(prices[i]), DateOf(prices[j]))
    ensures DateSet(prices) == DateSet(Flatten(pages))
    ensures forall i :: 0 <= i < |prices| ==> LastOfItsDate(Flatten(pages), prices[i])
  {
    var seen: map<string, JsonObject> := map[];
    // the dictionary's keys in insertion order
    var order: seq<string> := [];
    for p := 0 to |pages|
      invariant seen == Absorb(Flatten(pages[..p]))
      invariant Distinct(order) && forall k :: k in order <==> k in seen
    {
      FlattenSnoc(pages, p);
      match pages[p]
      case OtherJson =>
        assert Flatten(pages[..p]) + [] == Flatten(pages[..p]);
      case JsonArray(rows) =>
        seen, order := AbsorbRows(seen, order, Flatten(pages[..p]), rows);
    }
    assert pages[..|pages|] == pages;
    prices := InKeyOrder(seen, order);
    InKeyOrderMerges(Flatten(pages), seen, order);
  }
}
