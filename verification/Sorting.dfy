/** Python's `sorted`: the stable sort by a key order, and what a chain of such sorts amounts to. */
module Sorting {
  ghost predicate Preorder<T(!new)>(le: (T, T) -> bool) {
    && (forall a, b :: le(a, b) || le(b, a))
    && (forall a, b, c :: le(a, b) && le(b, c) ==> le(a, c))
  }

  ghost predicate Sorted<T>(s: seq<T>, le: (T, T) -> bool) {
    forall i, j :: 0 <= i < j < |s| ==> le(s[i], s[j])
  }

  function Insert<T>(x: T, s: seq<T>, le: (T, T) -> bool): (r: seq<T>) {
    if |s| == 0 || le(x, s[0]) then [x] + s else [s[0]] + Insert(x, s[1..], le)
  }

  /** Elements the order does not tell apart keep their places. */
  function SortBy<T>(s: seq<T>, le: (T, T) -> bool): (r: seq<T>) {
    if |s| == 0 then [] else Insert(s[0], SortBy(s[1..], le), le)
  }

  /** Order by `major`, and by `minor` where `major` does not decide. */
  function Lex<T>(major: (T, T) -> bool, minor: (T, T) -> bool): (T, T) -> bool {
    (a: T, b: T) => major(a, b) && (major(b, a) ==> minor(a, b))
  }

  lemma {:induction false} InsertPermutes<T>(x: T, s: seq<T>, le: (T, T) -> bool)
    ensures multiset(Insert(x, s, le)) == multiset(s) + multiset{x}
  {
    if |s| == 0 || le(x, s[0]) {
    } else {
      InsertPermutes(x, s[1..], le);
      assert s == [s[0]] + s[1..];
    }
  }

  lemma {:induction false} SortPermutes<T>(s: seq<T>, le: (T, T) -> bool)
    ensures multiset(SortBy(s, le)) == multiset(s)
    ensures |SortBy(s, le)| == |s|
  {
    if |s| != 0 {
      SortPermutes(s[1..], le);
      InsertPermutes(s[0], SortBy(s[1..], le), le);
      assert s == [s[0]] + s[1..];
    }
    assert |multiset(SortBy(s, le))| == |multiset(s)|;
  }

  lemma {:induction false} InsertRefines<T(!new)>(x: T, s: seq<T>, major: (T, T) -> bool, minor: (T, T) -> bool)
    requires Preorder(major)
    requires Sorted(s, Lex(major, minor))
    requires forall i :: 0 <= i < |s| ==> minor(x, s[i])
    ensures Sorted(Insert(x, s, major), Lex(major, minor))
  {
    if |s| == 0 || major(x, s[0]) {
      assert forall i :: 0 <= i < |s| ==> Lex(major, minor)(x, s[i]);
    } else {
      var rest := s[1..];
      InsertRefines(x, rest, major, minor);
      InsertPermutes(x, rest, major);
      var r := Insert(x, rest, major);
      forall i | 0 <= i < |r| ensures Lex(major, minor)(s[0], r[i]) {
        assert r[i] in multiset(rest) + multiset{x};
        if r[i] != x {
          assert r[i] in rest;
          var k :| 0 <= k < |rest| && rest[k] == r[i];
          assert s[k + 1] == r[i];
        }
      }
    }
  }

  /** A stable sort of a list already in `minor` order yields the lexicographic order of both. */
  lemma {:induction false} SortRefines<T(!new)>(s: seq<T>, major: (T, T) -> bool, minor: (T, T) -> bool)
    requires Preorder(major)
    requires Sorted(s, minor)
    ensures Sorted(SortBy(s, major), Lex(major, minor))
  {
    if |s| != 0 {
      var rest := s[1..];
      SortRefines(rest, major, minor);
      SortPermutes(rest, major);
      var r := SortBy(rest, major);
      forall i | 0 <= i < |r| ensures minor(s[0], r[i]) {
        assert r[i] in multiset(rest);
        var k :| 0 <= k < |rest| && rest[k] == r[i];
        assert s[k + 1] == r[i];
      }
      InsertRefines(s[0], r, major, minor);
    }
  }

  function Anything<T>(): (T, T) -> bool { (a: T, b: T) => true }

  lemma SortSorts<T(!new)>(s: seq<T>, le: (T, T) -> bool)
    requires Preorder(le)
    ensures Sorted(SortBy(s, le), le)
  {
    SortRefines(s, le, Anything());
    assert forall a: T, b: T {:trigger Lex(le, Anything())(a, b)} :: Lex(le, Anything())(a, b) ==> le(a, b);
  }

  lemma LexIsPreorder<T(!new)>(major: (T, T) -> bool, minor: (T, T) -> bool)
    requires Preorder(major) && Preorder(minor)
    ensures Preorder(Lex(major, minor))
  {
  }

  lemma HeadIsLeast<T>(s: seq<T>, x: T, le: (T, T) -> bool)
    requires Sorted(s, le) && x in s
    ensures x == s[0] || le(s[0], x)
  {
    var i :| 0 <= i < |s| && s[i] == x;
  }

  lemma TailMultiset<T>(s: seq<T>)
    requires |s| > 0
    ensures multiset(s[1..]) == multiset(s) - multiset{s[0]}
  {
    assert s == [s[0]] + s[1..];
  }

  /** When no two elements tie, only one arrangement of them is sorted. */
  lemma {:induction false} SortedUnique<T>(s: seq<T>, t: seq<T>, le: (T, T) -> bool)
    requires multiset(s) == multiset(t)
    requires Sorted(s, le) && Sorted(t, le)
    requires forall a, b :: a in s && b in s && le(a, b) && le(b, a) ==> a == b
    ensures s == t
  {
    assert |multiset(s)| == |s| && |multiset(t)| == |t|;
    if |s| != 0 {
      assert s[0] in multiset(t) && t[0] in multiset(s);
      HeadIsLeast(s, t[0], le);
      HeadIsLeast(t, s[0], le);
      TailMultiset(s);
      TailMultiset(t);
      SortedUnique(s[1..], t[1..], le);
    }
  }

  /** `[b for b in s if keep(b)]` */
  function Filter<T>(s: seq<T>, keep: T -> bool): (r: seq<T>) {
    if |s| == 0 then [] else (if keep(s[0]) then [s[0]] else []) + Filter(s[1..], keep)
  }

  lemma {:induction false} FilterMembers<T(!new)>(s: seq<T>, keep: T -> bool)
    ensures forall x :: x in Filter(s, keep) <==> x in s && keep(x)
  {
    if |s| != 0 { FilterMembers(s[1..], keep); }
  }

  lemma {:induction false} FilterLast<T>(s: seq<T>, keep: T -> bool)
    requires |s| > 0
    ensures var n := |s| - 1; Filter(s, keep) == Filter(s[..n], keep) + if keep(s[n]) then [s[n]] else []
  {
    var n := |s| - 1;
    if n > 0 {
      FilterLast(s[1..], keep);
      assert s[1..][..n - 1] == s[..n][1..];
    }
  }

  /** Filtering twice is filtering by both conditions. */
  lemma {:induction false} FilterBoth<T>(s: seq<T>, first: T -> bool, second: T -> bool, both: T -> bool)
    requires forall x <- s :: both(x) <==> first(x) && second(x)
    ensures Filter(Filter(s, first), second) == Filter(s, both)
  {
    if |s| != 0 {
      var rest := Filter(s[1..], first);
      assert s[0] in s && forall x <- s[1..] :: x in s;
      FilterBoth(s[1..], first, second, both);
      if first(s[0]) {
        assert Filter(s, first) == [s[0]] + rest && ([s[0]] + rest)[1..] == rest;
      } else {
        assert Filter(s, first) == [] + rest && [] + rest == rest;
      }
    }
  }

  lemma {:induction false} FilterCounts<T>(s: seq<T>, keep: T -> bool, x: T)
    ensures multiset(Filter(s, keep))[x] == if keep(x) then multiset(s)[x] else 0
  {
    if |s| != 0 {
      FilterCounts(s[1..], keep, x);
      assert s == [s[0]] + s[1..];
    }
  }

  lemma {:induction false} FilterSorted<T(!new)>(s: seq<T>, keep: T -> bool, le: (T, T) -> bool)
    requires Sorted(s, le)
    ensures Sorted(Filter(s, keep), le)
  {
    if |s| != 0 {
      FilterSorted(s[1..], keep, le);
      FilterMembers(s[1..], keep);
      var r := Filter(s[1..], keep);
      forall i | 0 <= i < |r| ensures le(s[0], r[i]) {
        assert r[i] in r;
        var k :| 0 <= k < |s[1..]| && s[1..][k] == r[i];
        assert s[k + 1] == r[i];
      }
    }
  }

  /** Any two elements are apart, whichever comes first. */
  ghost predicate Pairwise<T>(s: seq<T>, apart: (T, T) -> bool) {
    forall i, j :: 0 <= i < j < |s| ==> apart(s[i], s[j]) && apart(s[j], s[i])
  }

  lemma {:induction false} InsertPairwise<T>(x: T, s: seq<T>, le: (T, T) -> bool, apart: (T, T) -> bool)
    requires Pairwise(s, apart) && forall i :: 0 <= i < |s| ==> apart(x, s[i]) && apart(s[i], x)
    ensures Pairwise(Insert(x, s, le), apart)
  {
    if |s| != 0 && !le(x, s[0]) {
      var rest := Insert(x, s[1..], le);
      InsertPairwise(x, s[1..], le, apart);
      InsertPermutes(x, s[1..], le);
      forall k | 0 <= k < |rest| ensures apart(s[0], rest[k]) && apart(rest[k], s[0]) {
        assert rest[k] in multiset(s[1..]) + multiset{x};
        if rest[k] != x {
          var m :| 0 <= m < |s[1..]| && s[1..][m] == rest[k];
          assert s[m + 1] == rest[k];
        }
      }
    }
  }

  lemma {:induction false} SortPairwise<T>(s: seq<T>, le: (T, T) -> bool, apart: (T, T) -> bool)
    requires Pairwise(s, apart)
    ensures Pairwise(SortBy(s, le), apart)
  {
    if |s| != 0 {
      var rest := SortBy(s[1..], le);
      SortPairwise(s[1..], le, apart);
      SortPermutes(s[1..], le);
      forall k | 0 <= k < |rest| ensures apart(s[0], rest[k]) && apart(rest[k], s[0]) {
        assert rest[k] in multiset(s[1..]);
        var m :| 0 <= m < |s[1..]| && s[1..][m] == rest[k];
        assert s[m + 1] == rest[k];
      }
      InsertPairwise(s[0], rest, le, apart);
    }
  }
}
