/**
 * `parse_number`: the investor-flow amounts arrive as text such as
 * "+1,234" or "-56"; thousands separators and plus signs are deleted,
 * whitespace is trimmed, and the remainder is read as a decimal number
 * truncated toward zero. Anything missing, empty or unreadable is 0.
 */
module Numbers {
  import opened Wrappers
  import opened Text

  predicate IsDigit(c: char)
  {
    '0' <= c <= '9'
  }

  predicate AllDigits(s: string)
  {
    forall i :: 0 <= i < |s| ==> IsDigit(s[i])
  }

  /** The length of the run of digits at the start of `t`. */
  function LeadingDigits(t: string): (n: nat)
    ensures n <= |t| && AllDigits(t[..n])
    ensures n < |t| ==> !IsDigit(t[n])
  {
    if t != [] && IsDigit(t[0]) then 1 + LeadingDigits(t[1..]) else 0
  }

  /** The value of a string of decimal digits (0 for the empty string). */
  function DigitsValue(s: string): nat
    requires AllDigits(s)
  {
    if s == [] then 0
    else 10 * DigitsValue(s[..|s| - 1]) + (s[|s| - 1] as int - '0' as int)
  }

  /**
   * The text after the sign, as Python's `float` reads it and `int`
   * truncates it: digits, optionally a point and more digits, with at
   * least one digit in all; the fractional digits are dropped.
   */
  function ParseUnsigned(u: string): Option<nat>
  {
    var n := LeadingDigits(u);
    if n == |u| then
      if n > 0 then Some(DigitsValue(u)) else None
    else if u[n] == '.' && AllDigits(u[n + 1..]) && (n > 0 || n + 1 < |u|) then
      Some(DigitsValue(u[..n]))
    else
      None
  }

  /** `int(float(t))` on text without `+`, or None where Python raises ValueError. */
  function ParseDecimal(t: string): Option<int>
  {
    if |t| > 0 && t[0] == '-' then
      match ParseUnsigned(t[1..])
      case Some(v) => Some(-(v as int))
      case None => None
    else
      ParseUnsigned(t)
  }

  /** The normalisation step: separators and plus signs deleted, then `strip()`. */
  function Normalize(s: string): string
  {
    Strip(Unmarked(s))
  }

  /**
   * An unsigned decimal numeral, described by the characters it may hold:
   * only digits and points, at least one digit, at most one point.
   */
  ghost predicate IsUnsignedNumeral(u: string)
  {
    && (forall i :: 0 <= i < |u| ==> IsDigit(u[i]) || u[i] == '.')
    && (exists i :: 0 <= i < |u| && IsDigit(u[i]))
    && (forall i, j :: 0 <= i < j < |u| && u[i] == '.' ==> u[j] != '.')
  }

  /** An optionally negative decimal numeral. */
  ghost predicate IsNumeral(t: string)
  {
    if |t| > 0 && t[0] == '-' then IsUnsignedNumeral(t[1..]) else IsUnsignedNumeral(t)
  }

  /** `parse_number(value)`. */
  function ParseNumber(value: Option<string>): (r: int)
    ensures value.None? ==> r == 0
    ensures value.Some? && Normalize(value.value) == "" ==> r == 0
  {
    match value
    case None => 0
    case Some(s) =>
      var normalized := Normalize(s);
      if normalized == "" then 0
      else
        match ParseDecimal(normalized)
        case Some(v) => v
        case None => 0
  }

  lemma {:induction false} ParseUnsignedAccepts(u: string)
    ensures ParseUnsigned(u).Some? <==> IsUnsignedNumeral(u)
  {
    var n := LeadingDigits(u);
    assert forall i :: 0 <= i < n ==> u[i] == u[..n][i];
    if n == |u| {
      if n > 0 {
        assert IsDigit(u[0]);
      }
    } else if u[n] == '.' {
      if ParseUnsigned(u).Some? {
        forall i | 0 <= i < |u|
          ensures IsDigit(u[i]) || u[i] == '.'
        {
          if i > n {
            assert u[i] == u[n + 1..][i - n - 1];
          }
        }
        if n > 0 {
          assert IsDigit(u[0]);
        } else {
          assert u[n + 1..][0] == u[n + 1];
          assert IsDigit(u[n + 1]);
        }
        forall i, j | 0 <= i < j < |u| && u[i] == '.'
          ensures u[j] != '.'
        {
          assert i == n;
          assert u[j] == u[n + 1..][j - n - 1];
        }
      }
      if IsUnsignedNumeral(u) {
        forall k | n + 1 <= k < |u|
          ensures IsDigit(u[k])
        {
          assert u[k] != '.';
        }
        assert AllDigits(u[n + 1..]);
        if n == 0 {
          var i :| 0 <= i < |u| && IsDigit(u[i]);
          assert i != 0;
        }
      }
    } else {
      assert !IsUnsignedNumeral(u) by {
        assert !(IsDigit(u[n]) || u[n] == '.');
      }
    }
  }

  /** The parser succeeds exactly on decimal numerals. */
  lemma ParseDecimalAccepts(t: string)
    ensures ParseDecimal(t).Some? <==> IsNumeral(t)
  {
    if |t| > 0 && t[0] == '-' {
      ParseUnsignedAccepts(t[1..]);
    } else {
      ParseUnsignedAccepts(t);
    }
  }

  /**
   * Text that is not a decimal numeral once separators, plus signs and
   * surrounding whitespace are gone ("abc", "--", "1.2.3", "-") gives 0
   * instead of an exception.
   */
  lemma NonNumeralIsZero(s: string)
    requires !IsNumeral(Normalize(s))
    ensures ParseNumber(Some(s)) == 0
  {
    ParseDecimalAccepts(Normalize(s));
  }

  /** Text made of whitespace, commas and plus signs only gives 0. */
  lemma BlankIsZero(s: string)
    requires forall i :: 0 <= i < |s| ==> IsSpace(s[i]) || s[i] == ',' || s[i] == '+'
    ensures ParseNumber(Some(s)) == 0
  {
    var t := Without(Without(s, ','), '+');
    WithoutCounts(s, ',');
    WithoutCounts(Without(s, ','), '+');
    forall i | 0 <= i < |t|
      ensures IsSpace(t[i])
    {
      assert t[i] in multiset(t);
      assert t[i] in multiset(s);
    }
    StripBlank(t);
  }

  /** The text with its separators and plus signs deleted, before stripping. */
  function Unmarked(s: string): string
  {
    Without(Without(s, ','), '+')
  }

  lemma UnmarkedAppend(a: string, b: string)
    ensures Unmarked(a + b) == Unmarked(a) + Unmarked(b)
  {
    WithoutAppend(a, b, ',');
    WithoutAppend(Without(a, ','), Without(b, ','), '+');
  }

  lemma UnmarkedInsert(s: string, i: nat, mark: char)
    requires i <= |s| && (mark == ',' || mark == '+')
    ensures Unmarked(s[..i] + [mark] + s[i..]) == Unmarked(s)
  {
    var a, b := s[..i], s[i..];
    assert s == a + b;
    UnmarkedAppend(a + [mark], b);
    UnmarkedAppend(a, [mark]);
    UnmarkedAppend(a, b);
    assert [mark][1..] == [];
    if mark == '+' {
      WithoutAbsent([mark], ',');
      assert Without([mark], '+') == [] + Without([], '+');
    } else {
      assert Without([mark], ',') == [] + Without([], ',');
    }
    assert Unmarked([mark]) == [];
  }

  /** Separators and plus signs may be inserted anywhere without changing the result. */
  lemma MarkIgnored(s: string, i: nat, mark: char)
    requires i <= |s| && (mark == ',' || mark == '+')
    ensures ParseNumber(Some(s[..i] + [mark] + s[i..])) == ParseNumber(Some(s))
  {
    UnmarkedInsert(s, i, mark);
  }

  /* ---- The decimal text the data source sends, and the round trip ---- */

  function Digit(d: nat): (c: char)
    requires d < 10
    ensures IsDigit(c) && c as int - '0' as int == d
  {
    '0' + d as char
  }

  /** The decimal numeral of `n`, without separators. */
  function Show(n: nat): (s: string)
    ensures s != [] && AllDigits(s)
  {
    if n < 10 then [Digit(n)] else Show(n / 10) + [Digit(n % 10)]
  }

  /** Three digits, with leading zeros, for a value below 1000. */
  function Pad3(m: nat): (s: string)
    requires m < 1000
    ensures |s| == 3 && AllDigits(s)
  {
    [Digit(m / 100), Digit(m / 10 % 10), Digit(m % 10)]
  }

  /** The numeral of `n` with a comma between groups of three digits ("1,234,567"). */
  function Grouped(n: nat): (s: string)
    ensures s != [] && IsDigit(s[0]) && IsDigit(s[|s| - 1])
  {
    if n < 1000 then Show(n) else Grouped(n / 1000) + [','] + Pad3(n % 1000)
  }

  /** An amount as the data source writes it: "-" before negatives, commas between groups. */
  function FormatGrouped(n: int): string
  {
    if n < 0 then "-" + Grouped(-n) else Grouped(n)
  }

  lemma {:induction false} ShowValue(n: nat)
    ensures DigitsValue(Show(n)) == n
  {
    if n >= 10 {
      ShowValue(n / 10);
      var s := Show(n);
      assert s[..|s| - 1] == Show(n / 10);
    }
  }

  lemma DigitsValueSnoc(s: string, c: char)
    requires AllDigits(s) && IsDigit(c)
    ensures AllDigits(s + [c])
    ensures DigitsValue(s + [c]) == 10 * DigitsValue(s) + (c as int - '0' as int)
  {
    assert (s + [c])[..|s|] == s;
  }

  lemma DigitsValueConcat3(a: string, b: string)
    requires AllDigits(a) && AllDigits(b) && |b| == 3
    ensures AllDigits(a + b)
    ensures DigitsValue(a + b) == 1000 * DigitsValue(a) + DigitsValue(b)
  {
    DigitsValueSnoc(a, b[0]);
    DigitsValueSnoc(a + [b[0]], b[1]);
    DigitsValueSnoc(a + [b[0]] + [b[1]], b[2]);
    assert a + b == a + [b[0]] + [b[1]] + [b[2]];
    DigitsValueSnoc([], b[0]);
    DigitsValueSnoc([] + [b[0]], b[1]);
    DigitsValueSnoc([] + [b[0]] + [b[1]], b[2]);
    assert b == [] + [b[0]] + [b[1]] + [b[2]];
  }

  lemma Pad3Value(m: nat)
    requires m < 1000
    ensures DigitsValue(Pad3(m)) == m
  {
    var p := Pad3(m);
    DigitsValueSnoc([], p[0]);
    DigitsValueSnoc([p[0]], p[1]);
    DigitsValueSnoc([p[0], p[1]], p[2]);
    assert [] + [p[0]] == [p[0]] && [p[0]] + [p[1]] == [p[0], p[1]] && [p[0], p[1]] + [p[2]] == p;
    assert m == 10 * (m / 10) + m % 10;
    assert m / 10 == 10 * (m / 10 / 10) + m / 10 % 10;
    assert m / 10 / 10 == m / 100;
  }

  /** Deleting the commas of `Grouped(n)` leaves a digit string worth `n`. */
  lemma {:induction false} UngroupedValue(n: nat)
    ensures AllDigits(Without(Grouped(n), ','))
    ensures Without(Grouped(n), ',') != []
    ensures DigitsValue(Without(Grouped(n), ',')) == n
  {
    if n < 1000 {
      WithoutAbsent(Show(n), ',');
      ShowValue(n);
    } else {
      var g, p := Grouped(n / 1000), Pad3(n % 1000);
      UngroupedValue(n / 1000);
      WithoutAppend(g + [','], p, ',');
      WithoutAppend(g, [','], ',');
      WithoutAbsent(p, ',');
      var u := Without(g, ',');
      assert Without(Grouped(n), ',') == u + p;
      DigitsValueConcat3(u, p);
      Pad3Value(n % 1000);
    }
  }

  lemma {:induction false} LeadingDigitsOf(a: string, b: string)
    requires AllDigits(a) && (b == [] || !IsDigit(b[0]))
    ensures LeadingDigits(a + b) == |a|
  {
    if a != [] {
      LeadingDigitsOf(a[1..], b);
      assert (a + b)[1..] == a[1..] + b;
    } else {
      assert a + b == b;
    }
  }

  /** A digit run followed by nothing or by a point and digits reads as the digit run. */
  lemma ParseWhole(u: string, rest: string)
    requires AllDigits(u) && u != []
    requires rest == [] || (rest[0] == '.' && AllDigits(rest[1..]))
    ensures ParseUnsigned(u + rest) == Some(DigitsValue(u))
  {
    var t := u + rest;
    LeadingDigitsOf(u, rest);
    if rest == [] {
      assert t == u;
    } else {
      assert t[..|u|] == u && t[|u|] == '.';
      assert t[|u| + 1..] == rest[1..];
    }
  }

  /** Clean text, with no marks to delete and no whitespace to trim, normalises to itself. */
  lemma NormalizeClean(t: string)
    requires t != [] && ',' !in t && '+' !in t
    requires !IsSpace(t[0]) && !IsSpace(t[|t| - 1])
    ensures Normalize(t) == t
  {
    WithoutAbsent(t, ',');
    WithoutAbsent(t, '+');
    StripTrimmed(t);
  }

  lemma NoMarks(u: string)
    requires AllDigits(u)
    ensures ',' !in u && '+' !in u && '.' !in u && '-' !in u
  {
    assert forall i :: 0 <= i < |u| ==> IsDigit(u[i]);
  }

  /** The sign and the digits left once the commas are deleted. */
  lemma UngroupedFormat(n: int, frac: string)
    requires AllDigits(frac)
    ensures var u := Without(Grouped(if n < 0 then -n else n), ',');
            var sign := if n < 0 then "-" else "";
            Unmarked(FormatGrouped(n)) == sign + u
            && Unmarked(FormatGrouped(n) + "." + frac) == sign + u + "." + frac
  {
    var g := Grouped(if n < 0 then -n else n);
    var sign := if n < 0 then "-" else "";
    UngroupedValue(if n < 0 then -n else n);
    var u := Without(g, ',');
    NoMarks(u);
    NoMarks(frac);
    assert FormatGrouped(n) == sign + g;
    UnmarkedAppend(sign, g);
    UnmarkedAppend(sign + g, ".");
    UnmarkedAppend(sign + g + ".", frac);
    WithoutAbsent(sign, ',');
    WithoutAbsent(sign, '+');
    WithoutAbsent(".", ',');
    WithoutAbsent(".", '+');
    WithoutAbsent(frac, ',');
    WithoutAbsent(frac, '+');
    WithoutAbsent(u, '+');
  }

  /** The signed digits `sign + u` read back as their value. */
  lemma ParseSigned(n: int, u: string, rest: string)
    requires AllDigits(u) && u != [] && DigitsValue(u) == (if n < 0 then -n else n)
    requires rest == [] || (rest[0] == '.' && AllDigits(rest[1..]))
    ensures ParseDecimal((if n < 0 then "-" else "") + (u + rest)) == Some(n)
  {
    ParseWhole(u, rest);
    var t := u + rest;
    if n < 0 {
      assert ("-" + t)[1..] == t;
    } else {
      assert "" + t == t;
      assert t[0] == u[0];
    }
  }

  lemma ParsesAs(s: string, t: string, v: int)
    requires Normalize(s) == t && t != [] && ParseDecimal(t) == Some(v)
    ensures ParseNumber(Some(s)) == v
  {
  }

  /** Signed digits, with or without a fractional part, are left alone by `strip`. */
  lemma SignedTrimmed(n: int, u: string, rest: string)
    requires AllDigits(u) && u != []
    requires rest == [] || (rest[0] == '.' && AllDigits(rest[1..]))
    ensures var t := (if n < 0 then "-" else "") + (u + rest); Strip(t) == t
  {
    var t := (if n < 0 then "-" else "") + (u + rest);
    assert t[0] == '-' || t[0] == u[0];
    if rest == [] {
      assert t[|t| - 1] == u[|u| - 1];
    } else if |rest| == 1 {
      assert t[|t| - 1] == '.';
    } else {
      assert t[|t| - 1] == rest[1..][|rest| - 2];
    }
    StripTrimmed(t);
  }

  /** The amounts read back exactly: "1,234" is 1234 and "-1,200" is -1200. */
  lemma FormattedRoundTrip(n: int)
    ensures ParseNumber(Some(FormatGrouped(n))) == n
  {
    var u := Without(Grouped(if n < 0 then -n else n), ',');
    var sign := if n < 0 then "-" else "";
    UngroupedValue(if n < 0 then -n else n);
    UngroupedFormat(n, []);
    var t := sign + (u + []);
    assert sign + u == t;
    ParseSigned(n, u, []);
    SignedTrimmed(n, u, []);
    assert Normalize(FormatGrouped(n)) == t;
    ParsesAs(FormatGrouped(n), t, n);
  }

  /** A fractional part is truncated toward zero: "-1,200.75" is -1200. */
  lemma FractionTruncated(n: int, frac: string)
    requires AllDigits(frac)
    ensures ParseNumber(Some(FormatGrouped(n) + "." + frac)) == n
  {
    var u := Without(Grouped(if n < 0 then -n else n), ',');
    var sign := if n < 0 then "-" else "";
    UngroupedValue(if n < 0 then -n else n);
    UngroupedFormat(n, frac);
    var rest := "." + frac;
    assert rest[1..] == frac;
    var t := sign + (u + rest);
    assert sign + u + "." + frac == t;
    ParseSigned(n, u, rest);
    SignedTrimmed(n, u, rest);
    assert Normalize(FormatGrouped(n) + "." + frac) == t;
    ParsesAs(FormatGrouped(n) + "." + frac, t, n);
  }

  lemma UnsignedNumeralClean(t: string)
    requires IsUnsignedNumeral(t)
    ensures t != [] && ',' !in t && '+' !in t && '-' !in t
    ensures !IsSpace(t[0]) && !IsSpace(t[|t| - 1])
  {
    assert IsDigit(t[0]) || t[0] == '.';
    assert IsDigit(t[|t| - 1]) || t[|t| - 1] == '.';
  }

  lemma NegatedDecimal(m: string, t: string)
    requires |m| > 0 && m[0] == '-' && m[1..] == t && ParseUnsigned(t).Some?
    ensures ParseDecimal(m) == Some(-(ParseUnsigned(t).value as int))
  {
  }

  /** A leading minus sign is kept: it negates the reading of the numeral after it. */
  lemma LeadingMinusKept(t: string)
    requires IsUnsignedNumeral(t)
    ensures ParseNumber(Some("-" + t)) == -ParseNumber(Some(t))
    ensures ParseNumber(Some(t)) >= 0
  {
    UnsignedNumeralClean(t);
    NormalizeClean(t);
    var m := "-" + t;
    assert m[0] == '-' && m[1..] == t && m[|m| - 1] == t[|t| - 1];
    assert ',' !in m && '+' !in m by {
      assert forall c :: c in m ==> c == '-' || c in t;
    }
    NormalizeClean(m);
    ParseUnsignedAccepts(t);
    var v := ParseUnsigned(t).value;
    assert ParseDecimal(t) == Some(v) by {
      assert t[0] != '-';
    }
    NegatedDecimal(m, t);
    ParsesAs(t, t, v);
    ParsesAs(m, m, -(v as int));
  }
}
