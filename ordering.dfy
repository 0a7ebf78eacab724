/**
 * Python's ordering of strings and its `sorted` / `list.sort`, which the
 * pipeline uses to order dates, bizdates and the dictionary keys of the
 * price merge.
 */
module Ordering {

  /** Python's `a < b` on `str`: lexicographic by code point, a proper prefix first. */
  predicate Less(a: string, b: string)
  {
    if a == [] then b != []
    else if b == [] then false
    else a[0] < b[0] || (a[0] == b[0] && Less(a[1..], b[1..]))
  }

  /** Python's `a <= b` on `str`. */
  predicate LessEq(a: string, b: string)
  {
    a == b || Less(a, b)
  }

  lemma {:induction false} LessIrreflexive(a: string)
    ensures !Less(a, a)
  {
    if a != [] {
      LessIrreflexive(a[1..]);
    }
  }

  lemma {:induction false} LessTransitive(a: string, b: string, c: string)
    requires Less(a, b) && Less(b, c)
    ensures Less(a, c)
  {
    if a != [] {
      assert b != [] && c != [];
      if a[0] == b[0] && b[0] == c[0] {
        LessTransitive(a[1..], b[1..], c[1..]);
      }
    }
  }

  lemma {:induction false} LessTrichotomy(a: string, b: string)
    ensures a == b || Less(a, b) || Less(b, a)
  {
    if a != [] && b != [] && a[0] == b[0] {
      LessTrichotomy(a[1..], b[1..]);
      if a[1..] == b[1..] {
        assert a == [a[0]] + a[1..] && b == [b[0]] + b[1..];
      }
    }
  }

  lemma LessAsymmetric(a: string, b: string)
    requires Less(a, b)
    ensures !Less(b, a) && a != b
  {
    LessIrreflexive(a);
    if Less(b, a) {
      LessTransitive(a, b, a);
    }
  }

  lemma LessEqTransitive(a: string, b: string, c: string)
    requires LessEq(a, b) && LessEq(b, c)
    ensures LessEq(a, c)
  {
    if a != b && b != c {
      LessTransitive(a, b, c);
    }
  }

  /** Two strings that split into blocks of equal length compare block by block. */
  lemma {:induction false} LessConcat(a1: string, a2: string, b1: string, b2: string)
    requires |a1| == |b1|
    ensures Less(a1 + a2, b1 + b2) <==> Less(a1, b1) || (a1 == b1 && Less(a2, b2))
  {
    if a1 == [] {
      assert a1 + a2 == a2 && b1 + b2 == b2;
    } else {
      LessConcat(a1[1..], a2, b1[1..], b2);
      assert (a1 + a2)[0] == a1[0] && (a1 + a2)[1..] == a1[1..] + a2;
      assert (b1 + b2)[0] == b1[0] && (b1 + b2)[1..] == b1[1..] + b2;
      if a1[0] == b1[0] && a1[1..] == b1[1..] {
        assert a1 == [a1[0]] + a1[1..] && b1 == [b1[0]] + b1[1..];
      }
      if a1 == b1 {
        LessIrreflexive(a1);
      }
    }
  }

  /** The identity on strings, the sort key of a list of strings. */
  function Itself(s: string): string
  {
    s
  }

  /** `s` is in ascending order of `key` (repeated keys allowed). */
  ghost predicate SortedBy<T>(s: seq<T>, key: T -> string)
  {
    forall i, j :: 0 <= i < j < |s| ==> LessEq(key(s[i]), key(s[j]))
  }

  /** No element of `s` occurs twice. */
  ghost predicate Distinct<T>(s: seq<T>)
  {
    forall i, j :: 0 <= i < j < |s| ==> s[i] != s[j]
  }

  /** Places `x` after every element whose key is at most its own. */
  function Insert<T>(s: seq<T>, x: T, key: T -> string): (r: seq<T>)
    ensures multiset(r) == multiset(s) + multiset{x}
  {
    if s == [] then [x]
    else if Less(key(x), key(s[0])) then [x] + s
    else
      assert s == [s[0]] + s[1..];
      [s[0]] + Insert(s[1..], x, key)
  }

  lemma {:induction false} InsertSorted<T>(s: seq<T>, x: T, key: T -> string)
    requires SortedBy(s, key)
    ensures SortedBy(Insert(s, x, key), key)
  {
    if s == [] {
    } else if Less(key(x), key(s[0])) {
      forall j | 0 <= j < |s|
        ensures LessEq(key(x), key(s[j]))
      {
        LessEqTransitive(key(x), key(s[0]), key(s[j]));
      }
    } else {
      var tail := Insert(s[1..], x, key);
      InsertSorted(s[1..], x, key);
      LessTrichotomy(key(x), key(s[0]));
      forall k | 0 <= k < |tail|
        ensures LessEq(key(s[0]), key(tail[k]))
      {
        assert tail[k] in multiset(tail);
        if tail[k] != x {
          assert tail[k] in multiset(s[1..]);
          var m :| 0 <= m < |s[1..]| && s[1..][m] == tail[k];
          assert s[1 + m] == tail[k];
        }
      }
      assert Insert(s, x, key) == [s[0]] + tail;
    }
  }

  /** Inserting a key larger than every key present appends. */
  lemma {:induction false} InsertAtEnd<T>(s: seq<T>, x: T, key: T -> string)
    requires forall i :: 0 <= i < |s| ==> Less(key(s[i]), key(x))
    ensures Insert(s, x, key) == s + [x]
  {
    if s != [] {
      LessAsymmetric(key(s[0]), key(x));
      InsertAtEnd(s[1..], x, key);
      assert s == [s[0]] + s[1..];
    }
  }

  /**
   * Python's stable `sorted(xs, key=key)`: an insertion sort that takes the
   * elements in their given order.
   */
  function SortBy<T>(xs: seq<T>, key: T -> string): (r: seq<T>)
    ensures multiset(r) == multiset(xs)
  {
    if xs == [] then []
    else
      assert xs == xs[..|xs| - 1] + [xs[|xs| - 1]];
      Insert(SortBy(xs[..|xs| - 1], key), xs[|xs| - 1], key)
  }

  /** `sorted` returns its input in ascending order of the key. */
  lemma {:induction false} SortBySorted<T>(xs: seq<T>, key: T -> string)
    ensures SortedBy(SortBy(xs, key), key)
  {
    if xs != [] {
      SortBySorted(xs[..|xs| - 1], key);
      InsertSorted(SortBy(xs[..|xs| - 1], key), xs[|xs| - 1], key);
    }
  }

  /** The keys of `s` strictly ascend: sorted, with no key twice. */
  ghost predicate StrictlyAscendingBy<T>(s: seq<T>, key: T -> string)
  {
    forall i, j :: 0 <= i < j < |s| ==> Less(key(s[i]), key(s[j]))
  }

  lemma StrictlyAscendingSplit<T>(xs: seq<T>, key: T -> string)
    requires xs != [] && StrictlyAscendingBy(xs, key)
    ensures StrictlyAscendingBy(xs[..|xs| - 1], key)
    ensures forall i :: 0 <= i < |xs| - 1 ==> Less(key(xs[i]), key(xs[|xs| - 1]))
  {
  }

  lemma SortByUnfold<T>(xs: seq<T>, key: T -> string)
    requires xs != []
    ensures SortBy(xs, key) == Insert(SortBy(xs[..|xs| - 1], key), xs[|xs| - 1], key)
  {
  }

  lemma InitLast<T>(xs: seq<T>)
    requires xs != []
    ensures xs == xs[..|xs| - 1] + [xs[|xs| - 1]]
  {
  }

  /** Sorting a sequence whose keys already strictly ascend changes nothing. */
  lemma {:induction false} SortByStrictlyAscending<T>(xs: seq<T>, key: T -> string)
    requires StrictlyAscendingBy(xs, key)
    ensures SortBy(xs, key) == xs
  {
    if xs != [] {
      var init, last := xs[..|xs| - 1], xs[|xs| - 1];
      StrictlyAscendingSplit(xs, key);
      SortByStrictlyAscending(init, key);
      InsertAtEnd(init, last, key);
      SortByUnfold(xs, key);
      InitLast(xs);
    }
  }

  lemma {:induction false} DistinctMultiplicity<T>(s: seq<T>, x: T)
    requires Distinct(s)
    ensures multiset(s)[x] <= 1
  {
    if s != [] {
      assert s == [s[0]] + s[1..];
      DistinctMultiplicity(s[1..], x);
      if s[0] == x {
        assert x !in s[1..];
      }
    }
  }

  /** A permutation of a sequence without repeats has no repeats. */
  lemma DistinctPermutation<T>(a: seq<T>, b: seq<T>)
    requires multiset(a) == multiset(b) && Distinct(a)
    ensures Distinct(b)
  {
    forall i, j | 0 <= i < j < |b|
      ensures b[i] != b[j]
    {
      if b[i] == b[j] {
        assert b == b[..j] + b[j..];
        assert b[i] in multiset(b[..j]) && b[j] in multiset(b[j..]);
        assert multiset(b)[b[i]] >= 2;
        DistinctMultiplicity(a, b[i]);
        assert false;
      }
    }
  }

  /**
   * The elements of `xs`, each once: the contents of a Python set. The order
   * chosen here does not matter, because the result is sorted next.
   */
  function Dedup(xs: seq<string>): (r: seq<string>)
    ensures Distinct(r)
    ensures forall y :: y in r <==> y in xs
  {
    if xs == [] then []
    else
      var init, last := xs[..|xs| - 1], xs[|xs| - 1];
      assert xs == init + [last];
      var d := Dedup(init);
      if last in d then d else d + [last]
  }

  /** `s` back to front. */
  function Reverse<T>(s: seq<T>): seq<T>
  {
    seq(|s|, i requires 0 <= i < |s| => s[|s| - 1 - i])
  }

  /** Reversing strictly ascending strings gives strictly descending ones: `sorted(..., reverse=True)`. */
  lemma ReverseDescends(s: seq<string>)
    requires forall i, j :: 0 <= i < j < |s| ==> Less(s[i], s[j])
    ensures var r := Reverse(s);
      forall i, j :: 0 <= i < j < |r| ==> Less(r[j], r[i])
  {
    var r := Reverse(s);
    forall i, j | 0 <= i < j < |r|
      ensures Less(r[j], r[i])
    {
      assert r[i] == s[|s| - 1 - i] && r[j] == s[|s| - 1 - j];
    }
  }

  lemma ReverseMembers<T>(s: seq<T>)
    ensures forall x :: x in Reverse(s) <==> x in s
  {
    var r := Reverse(s);
    forall x | x in s
      ensures x in r
    {
      var k :| 0 <= k < |s| && s[k] == x;
      assert r[|s| - 1 - k] == x;
    }
  }

  lemma SortByMembers<T>(xs: seq<T>, key: T -> string)
    ensures forall x :: x in SortBy(xs, key) <==> x in xs
  {
    var s := SortBy(xs, key);
    forall x
      ensures x in s <==> x in xs
    {
      assert x in s <==> x in multiset(s);
      assert x in xs <==> x in multiset(xs);
    }
  }

  /** Sorted strings none of which repeats are strictly ascending. */
  lemma SortedDistinctAscending(s: seq<string>)
    requires SortedBy(s, Itself) && Distinct(s)
    ensures forall i, j :: 0 <= i < j < |s| ==> Less(s[i], s[j])
  {
    forall i, j | 0 <= i < j < |s|
      ensures Less(s[i], s[j])
    {
      assert LessEq(Itself(s[i]), Itself(s[j]));
    }
  }
}
