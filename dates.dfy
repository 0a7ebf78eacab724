/**
 * `to_bizdate`: the trend endpoint keys its records by a "bizdate", the
 * trading date written without hyphens ("2024-01-05" becomes "20240105").
 */
module Dates {
  import opened Text
  import opened Numbers
  import opened Ordering

  /** `date_str.replace("-", "")`. */
  function ToBizdate(date: string): string
  {
    Without(date, '-')
  }

  /**
   * Every hyphen goes and nothing else does: each other character keeps its
   * number of occurrences, and the length drops by the number of hyphens.
   */
  lemma BizdateDropsHyphens(date: string)
    ensures '-' !in ToBizdate(date)
    ensures |ToBizdate(date)| == |date| - multiset(date)['-']
    ensures forall c :: c != '-' ==> multiset(ToBizdate(date))[c] == multiset(date)[c]
  {
    WithoutCounts(date, '-');
    assert multiset(ToBizdate(date))['-'] == 0;
  }

  /** Deleting hyphens from two pieces is deleting them from the whole, in order. */
  lemma BizdateAppend(a: string, b: string)
    ensures ToBizdate(a + b) == ToBizdate(a) + ToBizdate(b)
  {
    WithoutAppend(a, b, '-');
  }

  /** An ISO `YYYY-MM-DD` date, as the price endpoint writes `localTradedAt`. */
  ghost predicate IsIsoDate(d: string)
  {
    |d| == 10 && d[4] == '-' && d[7] == '-'
    && AllDigits(d[..4]) && AllDigits(d[5..7]) && AllDigits(d[8..])
  }

  /** A `YYYYMMDD` bizdate. */
  ghost predicate IsBizdate(b: string)
  {
    |b| == 8 && AllDigits(b)
  }

  /** The ISO date a bizdate stands for: hyphens put back after the year and the month. */
  function FromBizdate(b: string): string
    requires |b| == 8
  {
    b[..4] + "-" + b[4..6] + "-" + b[6..]
  }

  /** An ISO date's bizdate is its year, month and day digits run together. */
  lemma IsoDateBizdate(d: string)
    requires IsIsoDate(d)
    ensures ToBizdate(d) == d[..4] + d[5..7] + d[8..]
    ensures IsBizdate(ToBizdate(d))
  {
    var y, m, dd := d[..4], d[5..7], d[8..];
    assert d == y + "-" + m + "-" + dd;
    NoHyphen(y);
    NoHyphen(m);
    NoHyphen(dd);
    BizdateAppend(y + "-" + m + "-", dd);
    BizdateAppend(y + "-" + m, "-");
    BizdateAppend(y + "-", m);
    BizdateAppend(y, "-");
    assert ToBizdate("-") == [];
    var b := y + m + dd;
    assert forall i :: 0 <= i < 8 ==> b[i] == (if i < 4 then y[i] else if i < 6 then m[i - 4] else dd[i - 6]);
  }

  lemma NoHyphen(s: string)
    requires AllDigits(s)
    ensures ToBizdate(s) == s
  {
    assert forall i :: 0 <= i < |s| ==> s[i] != '-';
    WithoutAbsent(s, '-');
  }

  /** Putting the hyphens back recovers the ISO date. */
  lemma IsoDateRoundTrip(d: string)
    requires IsIsoDate(d)
    ensures IsBizdate(ToBizdate(d)) && FromBizdate(ToBizdate(d)) == d
  {
    IsoDateBizdate(d);
    var b := ToBizdate(d);
    assert b[..4] == d[..4] && b[4..6] == d[5..7] && b[6..] == d[8..];
    assert d == d[..4] + "-" + d[5..7] + "-" + d[8..];
  }

  /** Every bizdate is the bizdate of exactly the ISO date `FromBizdate` gives. */
  lemma BizdateRoundTrip(b: string)
    requires IsBizdate(b)
    ensures IsIsoDate(FromBizdate(b))
    ensures ToBizdate(FromBizdate(b)) == b
  {
    var d := FromBizdate(b);
    assert d[..4] == b[..4] && d[5..7] == b[4..6] && d[8..] == b[6..];
    IsoDateBizdate(d);
    assert b == b[..4] + b[4..6] + b[6..];
  }

  /** Distinct trading dates never share a bizdate, so each looks up its own trend record. */
  lemma BizdateInjective(a: string, b: string)
    requires IsIsoDate(a) && IsIsoDate(b) && ToBizdate(a) == ToBizdate(b)
    ensures a == b
  {
    IsoDateRoundTrip(a);
    IsoDateRoundTrip(b);
  }

  /** Strings made of three blocks of matching lengths compare block by block. */
  lemma LessThreeBlocks(a1: string, a2: string, a3: string, b1: string, b2: string, b3: string)
    requires |a1| == |b1| && |a2| == |b2|
    ensures Less(a1 + (a2 + a3), b1 + (b2 + b3)) <==>
      Less(a1, b1) || (a1 == b1 && (Less(a2, b2) || (a2 == b2 && Less(a3, b3))))
  {
    LessConcat(a1, a2 + a3, b1, b2 + b3);
    LessConcat(a2, a3, b2, b3);
    if a1 == b1 && a2 + a3 == b2 + b3 {
      assert a2 == (a2 + a3)[..|a2|] && b2 == (b2 + b3)[..|b2|];
      assert a3 == (a2 + a3)[|a2|..] && b3 == (b2 + b3)[|b2|..];
    }
  }

  /** A hyphen in front of blocks of equal length does not change how they compare. */
  lemma LessAfterHyphen(a: string, b: string)
    ensures Less("-" + a, "-" + b) <==> Less(a, b)
    ensures "-" + a == "-" + b <==> a == b
  {
    LessConcat("-", a, "-", b);
    LessIrreflexive("-");
    if "-" + a == "-" + b {
      assert a == ("-" + a)[1..] && b == ("-" + b)[1..];
    }
  }

  /** ISO dates and their bizdates sort in the same order. */
  lemma BizdateOrder(a: string, b: string)
    requires IsIsoDate(a) && IsIsoDate(b)
    ensures Less(a, b) <==> Less(ToBizdate(a), ToBizdate(b))
  {
    IsoDateBizdate(a);
    IsoDateBizdate(b);
    var a1, a2, a3 := a[..4], a[5..7], a[8..];
    var b1, b2, b3 := b[..4], b[5..7], b[8..];
    assert a == a1 + (("-" + a2) + ("-" + a3));
    assert b == b1 + (("-" + b2) + ("-" + b3));
    assert ToBizdate(a) == a1 + (a2 + a3) && ToBizdate(b) == b1 + (b2 + b3);
    LessThreeBlocks(a1, "-" + a2, "-" + a3, b1, "-" + b2, "-" + b3);
    LessAfterHyphen(a2, b2);
    LessAfterHyphen(a3, b3);
    LessThreeBlocks(a1, a2, a3, b1, b2, b3);
  }
}
