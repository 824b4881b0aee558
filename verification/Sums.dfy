/** Finite sums over sequences, shared by the conservation arguments of the other modules. */
module Sums {
  function Sum<T>(s: seq<T>, f: T -> real): (r: real) {
    if |s| == 0 then 0.0 else Sum(s[..|s| - 1], f) + f(s[|s| - 1])
  }

  lemma {:induction false} SumConcat<T>(s: seq<T>, t: seq<T>, f: T -> real)
    ensures Sum(s + t, f) == Sum(s, f) + Sum(t, f)
  {
    if |t| == 0 {
      assert s + t == s;
    } else {
      assert (s + t)[..|s + t| - 1] == s + t[..|t| - 1];
      SumConcat(s, t[..|t| - 1], f);
    }
  }

  lemma {:induction false} SumUpdate<T>(s: seq<T>, i: nat, x: T, f: T -> real)
    requires i < |s|
    ensures Sum(s[i := x], f) == Sum(s, f) - f(s[i]) + f(x)
  {
    var n := |s| - 1;
    if i == n {
      assert s[i := x][..n] == s[..n];
    } else {
      assert s[i := x][..n] == s[..n][i := x];
      SumUpdate(s[..n], i, x, f);
    }
  }

  /** Two sequences whose terms agree have the same sum. */
  lemma {:induction false} SumAgree<S, T>(s: seq<S>, t: seq<T>, f: S -> real, g: T -> real)
    requires |s| == |t|
    requires forall i :: 0 <= i < |s| ==> f(s[i]) == g(t[i])
    ensures Sum(s, f) == Sum(t, g)
  {
    if |s| != 0 {
      SumAgree(s[..|s| - 1], t[..|t| - 1], f, g);
    }
  }

  lemma {:induction false} SumNonNegative<T>(s: seq<T>, f: T -> real)
    requires forall i :: 0 <= i < |s| ==> f(s[i]) >= 0.0
    ensures Sum(s, f) >= 0.0
  {
    if |s| != 0 {
      SumNonNegative(s[..|s| - 1], f);
    }
  }

  /** A sum of non-negative terms is at least any one of them. */
  lemma {:induction false} SumAtLeastTerm<T>(s: seq<T>, i: nat, f: T -> real)
    requires i < |s|
    requires forall k :: 0 <= k < |s| ==> f(s[k]) >= 0.0
    ensures Sum(s, f) >= f(s[i])
  {
    var n := |s| - 1;
    if i == n {
      SumNonNegative(s[..n], f);
    } else {
      SumAtLeastTerm(s[..n], i, f);
    }
  }

  /** Where the last element of one arrangement sits in another, and what is left of both without it. */
  lemma TakeOut<T>(s: seq<T>, t: seq<T>) returns (i: nat)
    requires |s| > 0 && multiset(s) == multiset(t)
    ensures i < |t| && t[i] == s[|s| - 1]
    ensures multiset(s[..|s| - 1]) == multiset(t[..i] + t[i + 1..])
    ensures t == t[..i] + [t[i]] + t[i + 1..]
  {
    var n := |s| - 1;
    assert s == s[..n] + [s[n]];
    assert s[n] in multiset(t);
    i :| 0 <= i < |t| && t[i] == s[n];
    assert t == t[..i] + [t[i]] + t[i + 1..];
    assert multiset(s[..n]) == multiset(s) - multiset{s[n]};
    assert multiset(t[..i] + t[i + 1..]) == multiset(t) - multiset{s[n]};
  }

  /** The sum does not depend on the order of the terms. */
  lemma {:induction false} SumPermutation<T>(s: seq<T>, t: seq<T>, f: T -> real)
    requires multiset(s) == multiset(t)
    ensures Sum(s, f) == Sum(t, f)
  {
    if |s| == 0 {
      assert |multiset(t)| == 0;
    } else {
      var i := TakeOut(s, t);
      var front, back := t[..i], t[i + 1..];
      SumPermutation(s[..|s| - 1], front + back, f);
      SumConcat(front, back, f);
      SumConcat(front, [t[i]], f);
      SumConcat(front + [t[i]], back, f);
    }
  }

  lemma Split<T>(s: seq<T>, n: nat)
    requires n <= |s|
    ensures s == s[..n] + s[n..]
  {
  }

  function Flatten<T>(parts: seq<seq<T>>): (r: seq<T>) {
    if |parts| == 0 then [] else Flatten(parts[..|parts| - 1]) + parts[|parts| - 1]
  }

  lemma {:induction false} FlattenConcat<T>(a: seq<seq<T>>, b: seq<seq<T>>)
    ensures Flatten(a + b) == Flatten(a) + Flatten(b)
  {
    if |b| == 0 {
      assert a + b == a;
    } else {
      assert (a + b)[..|a + b| - 1] == a + b[..|b| - 1];
      FlattenConcat(a, b[..|b| - 1]);
    }
  }

  lemma {:induction false} FlattenMember<T>(parts: seq<seq<T>>, x: T)
    ensures x in Flatten(parts) <==> exists i :: 0 <= i < |parts| && x in parts[i]
  {
    if |parts| != 0 {
      var n := |parts| - 1;
      FlattenMember(parts[..n], x);
      if x in Flatten(parts[..n]) {
        var i :| 0 <= i < n && x in parts[..n][i];
        assert x in parts[i];
      }
      if i :| 0 <= i < |parts| && x in parts[i] {
        if i < n { assert x in parts[..n][i]; }
      }
    }
  }

  function SumOf<T>(f: T -> real): seq<T> -> real {
    (s: seq<T>) => Sum(s, f)
  }

  lemma {:induction false} SumFlatten<T>(parts: seq<seq<T>>, f: T -> real)
    ensures Sum(Flatten(parts), f) == Sum(parts, SumOf(f))
  {
    if |parts| != 0 {
      SumFlatten(parts[..|parts| - 1], f);
      SumConcat(Flatten(parts[..|parts| - 1]), parts[|parts| - 1], f);
    }
  }

  /** `c` added up `n` times: the product without multiplication, which keeps the proofs linear. */
  function Times(n: nat, c: real): (r: real) {
    if n == 0 then 0.0 else Times(n - 1, c) + c
  }

  lemma {:induction false} TimesIsProduct(n: nat, c: real)
    ensures Times(n, c) == c * n as real
  {
    if n != 0 {
      TimesIsProduct(n - 1, c);
      assert c * n as real == c * (n - 1) as real + c;
    }
  }

  lemma {:induction false} TimesOneTwo(n: nat)
    ensures Times(n, 1.0) == n as real && Times(n, 2.0) == (2 * n) as real
  {
    if n != 0 { TimesOneTwo(n - 1); }
  }

  lemma {:induction false} TimesMonotone(m: nat, n: nat, c: real)
    requires m <= n && c >= 0.0
    ensures Times(m, c) <= Times(n, c)
  {
    if m < n { TimesMonotone(m, n - 1, c); }
  }

  lemma {:induction false} SumAtLeast<T>(s: seq<T>, f: T -> real, c: real)
    requires forall i :: 0 <= i < |s| ==> f(s[i]) >= c
    ensures Sum(s, f) >= Times(|s|, c)
  {
    if |s| != 0 { SumAtLeast(s[..|s| - 1], f, c); }
  }

  lemma {:induction false} SumAtMost<T>(s: seq<T>, f: T -> real, c: real)
    requires forall i :: 0 <= i < |s| ==> f(s[i]) <= c
    ensures Sum(s, f) <= Times(|s|, c)
  {
    if |s| != 0 { SumAtMost(s[..|s| - 1], f, c); }
  }

  lemma SumFrontTwo<T>(s: seq<T>, f: T -> real)
    requires |s| >= 2
    ensures Sum(s, f) == Sum(s[..|s| - 2], f) + f(s[|s| - 2]) + f(s[|s| - 1])
  {
    var front := s[..|s| - 1];
    assert front[..|front| - 1] == s[..|s| - 2];
    assert Sum(front, f) == Sum(front[..|front| - 1], f) + f(front[|front| - 1]);
  }

  /** When any two of the terms exceed a limit, twice the sum exceeds the limit as often as there are terms. */
  lemma {:induction false} PairsExceed<T>(s: seq<T>, f: T -> real, limit: real)
    requires |s| >= 2 && forall i, j :: 0 <= i < j < |s| ==> f(s[i]) + f(s[j]) > limit
    ensures Times(|s|, limit) < 2.0 * Sum(s, f)
  {
    var n := |s| - 1;
    SumFrontTwo(s, f);
    assert f(s[n - 1]) + f(s[n]) > limit;
    assert Times(n + 1, limit) == Times(n, limit) + limit;
    assert Times(n, limit) == Times(n - 1, limit) + limit;
    if n == 2 {
      assert f(s[0]) + f(s[1]) > limit && f(s[0]) + f(s[2]) > limit;
      assert s[..1] == [s[0]] && [s[0]][..0] == [];
      assert Times(1, limit) == Times(0, limit) + limit;
      assert Sum([s[0]], f) == Sum([s[0]][..0], f) + f(s[0]);
    } else if n > 2 {
      PairsExceed(s[..n - 1], f, limit);
    } else {
      assert s[..0] == [];
    }
  }

  /** The multiset counterpart of Sum. */
  function BagSum<T, U>(s: seq<T>, f: T -> multiset<U>): (r: multiset<U>) {
    if |s| == 0 then multiset{} else BagSum(s[..|s| - 1], f) + f(s[|s| - 1])
  }

  lemma {:induction false} BagSumConcat<T, U>(s: seq<T>, t: seq<T>, f: T -> multiset<U>)
    ensures BagSum(s + t, f) == BagSum(s, f) + BagSum(t, f)
  {
    if |t| == 0 {
      assert s + t == s;
    } else {
      assert (s + t)[..|s + t| - 1] == s + t[..|t| - 1];
      BagSumConcat(s, t[..|t| - 1], f);
    }
  }

  lemma {:induction false} BagSumUpdate<T, U>(s: seq<T>, i: nat, x: T, extra: multiset<U>, f: T -> multiset<U>)
    requires i < |s| && f(x) == f(s[i]) + extra
    ensures BagSum(s[i := x], f) == BagSum(s, f) + extra
  {
    var n := |s| - 1;
    if i == n {
      assert s[i := x][..n] == s[..n];
    } else {
      assert s[i := x][..n] == s[..n][i := x];
      BagSumUpdate(s[..n], i, x, extra, f);
    }
  }

  lemma {:induction false} BagSumPermutation<T, U>(s: seq<T>, t: seq<T>, f: T -> multiset<U>)
    requires multiset(s) == multiset(t)
    ensures BagSum(s, f) == BagSum(t, f)
  {
    if |s| == 0 {
      assert |multiset(t)| == 0;
    } else {
      var i := TakeOut(s, t);
      var front, back := t[..i], t[i + 1..];
      BagSumPermutation(s[..|s| - 1], front + back, f);
      BagSumConcat(front, back, f);
      BagSumConcat(front, [t[i]], f);
      BagSumConcat(front + [t[i]], back, f);
    }
  }
}
