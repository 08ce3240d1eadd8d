/** Python's ordering of `str` values (code point by code point, a proper prefix first) and
    `sorted` on a list of distinct strings. */
module StrOrder {
  import opened Text

  /** Python's `a < b` on strings. */
  predicate StrLess(a: string, b: string)
  {
    if a == [] then b != []
    else b != [] && (if a[0] != b[0] then a[0] < b[0] else StrLess(a[1..], b[1..]))
  }

  /** `<` on strings is a strict total order. */
  lemma {:induction false} StrLessIsStrictTotal(a: string, b: string, c: string)
    ensures !StrLess(a, a)
    ensures StrLess(a, b) ==> !StrLess(b, a)
    ensures StrLess(a, b) && StrLess(b, c) ==> StrLess(a, c)
    ensures a != b ==> StrLess(a, b) || StrLess(b, a)
  {
    StrLessIrreflexive(a);
    StrLessTrichotomy(a, b);
    StrLessTransitive(a, b, c);
  }

  lemma {:induction false} StrLessIrreflexive(a: string)
    ensures !StrLess(a, a)
  {
    if a != [] {
      StrLessIrreflexive(a[1..]);
    }
  }

  lemma {:induction false} StrLessTrichotomy(a: string, b: string)
    ensures StrLess(a, b) ==> !StrLess(b, a)
    ensures a != b ==> StrLess(a, b) || StrLess(b, a)
  {
    if a != [] && b != [] {
      StrLessTrichotomy(a[1..], b[1..]);
      if a[0] == b[0] && a[1..] == b[1..] {
        assert a == [a[0]] + a[1..] && b == [b[0]] + b[1..];
      }
    }
  }

  lemma {:induction false} StrLessTransitive(a: string, b: string, c: string)
    ensures StrLess(a, b) && StrLess(b, c) ==> StrLess(a, c)
  {
    if a != [] && b != [] && c != [] {
      StrLessTransitive(a[1..], b[1..], c[1..]);
    }
  }

  /** Comparing texts that begin with parts of the same length compares those parts first. */
  lemma {:induction false} StrLessConcat(x1: string, y1: string, x2: string, y2: string)
    requires |x1| == |x2|
    ensures StrLess(x1 + y1, x2 + y2) <==> StrLess(x1, x2) || (x1 == x2 && StrLess(y1, y2))
  {
    if x1 == [] {
      assert x1 + y1 == y1 && x2 + y2 == y2;
    } else {
      assert (x1 + y1)[0] == x1[0] && (x2 + y2)[0] == x2[0];
      assert (x1 + y1)[1..] == x1[1..] + y1 && (x2 + y2)[1..] == x2[1..] + y2;
      StrLessConcat(x1[1..], y1, x2[1..], y2);
      if x1[0] == x2[0] && x1[1..] == x2[1..] {
        assert x1 == [x1[0]] + x1[1..] && x2 == [x2[0]] + x2[1..];
      }
    }
  }

  /** Zero-padded numbers of one width compare as text the way they compare as numbers. */
  lemma {:induction false} PaddedOrder(a: nat, b: nat, width: nat)
    requires a < Pow10(width) && b < Pow10(width)
    ensures StrLess(Padded(a, width), Padded(b, width)) <==> a < b
    ensures Padded(a, width) == Padded(b, width) <==> a == b
  {
    if width > 0 {
      PaddedOrder(a / 10, b / 10, width - 1);
      var da, db := DigitChar(a % 10), DigitChar(b % 10);
      StrLessConcat(Padded(a / 10, width - 1), [da], Padded(b / 10, width - 1), [db]);
      assert StrLess([da], [db]) <==> a % 10 < b % 10 by {
        assert [da][1..] == [] && [db][1..] == [];
      }
      if Padded(a, width) == Padded(b, width) {
        assert DigitsValue(Padded(a, width)) == a;
        assert DigitsValue(Padded(b, width)) == b;
      }
    }
  }

  /** Every element is at most its successors. */
  predicate Ascending(s: seq<string>)
  {
    forall i, j :: 0 <= i < j < |s| ==> !StrLess(s[j], s[i])
  }

  /** `x` placed into an ascending list just before the first element greater than it. */
  function Insert(x: string, s: seq<string>): seq<string>
  {
    if s == [] then [x]
    else if StrLess(s[0], x) then [s[0]] + Insert(x, s[1..])
    else [x] + s
  }

  /** Python's `sorted` on strings (as an insertion sort; the order is what matters). */
  function SortStrings(s: seq<string>): seq<string>
  {
    if s == [] then [] else Insert(s[0], SortStrings(s[1..]))
  }

  /** Inserting adds exactly the one element. */
  lemma {:induction false} InsertKeeps(x: string, s: seq<string>)
    ensures multiset(Insert(x, s)) == multiset(s) + multiset{x}
  {
    if s != [] && StrLess(s[0], x) {
      InsertKeeps(x, s[1..]);
      assert s == [s[0]] + s[1..];
    }
  }

  /** Inserting into an ascending list keeps it ascending. */
  lemma {:induction false} InsertAscending(x: string, s: seq<string>)
    requires Ascending(s)
    ensures Ascending(Insert(x, s))
  {
    if s != [] && StrLess(s[0], x) {
      InsertAscending(x, s[1..]);
      StrLessIsStrictTotal(s[0], x, x);
      InsertAtLeast(s[0], x, s[1..]);
    } else if s != [] {
      var r := [x] + s;
      forall j | 0 < j < |r| ensures !StrLess(r[j], x) {
        var y := s[j - 1];
        if j > 1 {
          assert !StrLess(y, s[0]);
        } else {
          StrLessIrreflexive(y);
        }
        StrLessIsStrictTotal(y, s[0], x);
        StrLessIsStrictTotal(y, x, s[0]);
        StrLessIsStrictTotal(x, s[0], y);
      }
    }
  }

  /** No element is below `lo`. */
  predicate AtLeast(lo: string, s: seq<string>)
  {
    forall i :: 0 <= i < |s| ==> !StrLess(s[i], lo)
  }

  lemma {:induction false} InsertAtLeast(lo: string, x: string, s: seq<string>)
    requires AtLeast(lo, s) && !StrLess(x, lo)
    ensures AtLeast(lo, Insert(x, s))
  {
    if s != [] && StrLess(s[0], x) {
      InsertAtLeast(lo, x, s[1..]);
    }
  }

  /** `sorted` gives an ascending permutation of its input. */
  lemma {:induction false} SortStringsSpec(s: seq<string>)
    ensures multiset(SortStrings(s)) == multiset(s)
    ensures Ascending(SortStrings(s))
  {
    if s != [] {
      SortStringsSpec(s[1..]);
      InsertKeeps(s[0], SortStrings(s[1..]));
      InsertAscending(s[0], SortStrings(s[1..]));
      assert s == [s[0]] + s[1..];
    }
  }

  /** `sorted` keeps exactly the elements of its input, and as many. */
  lemma SortStringsMembers(s: seq<string>)
    ensures forall k :: k in SortStrings(s) <==> k in s
    ensures |SortStrings(s)| == |s|
  {
    SortStringsSpec(s);
    forall k ensures k in SortStrings(s) <==> k in s {
      assert k in SortStrings(s) <==> k in multiset(SortStrings(s));
      assert k in s <==> k in multiset(s);
    }
    assert |multiset(SortStrings(s))| == |multiset(s)|;
  }

  /** No string occurs twice. */
  predicate Distinct(keys: seq<string>)
  {
    forall i, j :: 0 <= i < j < |keys| ==> keys[i] != keys[j]
  }

  /** Every element is below its successors. */
  predicate StrictlyAscending(s: seq<string>)
  {
    forall i, j :: 0 <= i < j < |s| ==> StrLess(s[i], s[j])
  }

  lemma {:induction false} InsertStrict(x: string, s: seq<string>)
    requires StrictlyAscending(s) && x !in s
    ensures StrictlyAscending(Insert(x, s))
  {
    if s != [] && StrLess(s[0], x) {
      InsertStrict(x, s[1..]);
      InsertKeeps(x, s[1..]);
      var r := Insert(x, s);
      forall j | 0 < j < |r| ensures StrLess(s[0], r[j]) {
        var y := r[j];
        assert y in multiset(Insert(x, s[1..]));
        if y != x {
          assert y in multiset(s[1..]);
          var k :| 0 <= k < |s[1..]| && s[1..][k] == y;
          assert s[k + 1] == y;
        }
      }
    } else if s != [] {
      var r := [x] + s;
      StrLessIsStrictTotal(x, s[0], s[0]);
      forall j | 1 < j < |r| ensures StrLess(x, r[j]) {
        StrLessIsStrictTotal(x, s[0], r[j]);
      }
    }
  }

  /** `sorted` of distinct strings is strictly ascending. */
  lemma {:induction false} SortStringsStrict(s: seq<string>)
    requires Distinct(s)
    ensures StrictlyAscending(SortStrings(s))
  {
    if s != [] {
      assert Distinct(s[1..]);
      SortStringsStrict(s[1..]);
      SortStringsSpec(s[1..]);
      assert s[0] !in multiset(s[1..]);
      assert s[0] !in SortStrings(s[1..]) by {
        assert s[0] !in multiset(SortStrings(s[1..]));
      }
      InsertStrict(s[0], SortStrings(s[1..]));
    }
  }
}
