/** Things that lie in one another: each has at most one parent. */
module Hierarchy {
  import opened Basics

  type Parents<T(==)> = map<T, Option<T>>

  /** `a` is the n-th thing around `h`. */
  ghost predicate Path<T>(s: Parents<T>, h: T, a: T, n: nat)
    decreases n
  {
    h in s && if n == 0 then h == a else s[h].Some? && Path(s, s[h].value, a, n - 1)
  }

  /** `h` is `a` itself or somewhere in it. */
  ghost predicate Inside<T>(s: Parents<T>, h: T, a: T) { exists n: nat :: Path(s, h, a, n) }

  /** `n` things lie around `h`. */
  ghost predicate Height<T>(s: Parents<T>, h: T, n: nat)
    decreases n
  {
    h in s && if n == 0 then s[h].None? else s[h].Some? && Height(s, s[h].value, n - 1)
  }

  ghost predicate Rooted<T>(s: Parents<T>, h: T) { exists n: nat :: Height(s, h, n) }

  /** Going up comes to an end from everywhere. */
  ghost predicate Acyclic<T>(s: Parents<T>) { forall h <- s.Keys :: Rooted(s, h) }

  lemma {:induction false} PathTrans<T>(s: Parents<T>, x: T, y: T, z: T, m: nat, n: nat)
    requires Path(s, x, y, m) && Path(s, y, z, n)
    ensures Path(s, x, z, m + n)
    decreases m
  {
    if m != 0 { PathTrans(s, s[x].value, y, z, m - 1, n); }
  }

  lemma InsideSelf<T>(s: Parents<T>, h: T)
    requires h in s
    ensures Inside(s, h, h)
  {
    assert Path(s, h, h, 0);
  }

  /** A thing in a parent is inside whatever the parent is inside. */
  lemma InsideUp<T>(s: Parents<T>, h: T, a: T)
    requires h in s && s[h].Some?
    ensures Inside(s, h, a) <==> h == a || Inside(s, s[h].value, a)
  {
    if Inside(s, h, a) {
      var n: nat :| Path(s, h, a, n);
      if n != 0 { assert Path(s, s[h].value, a, n - 1); }
    }
    if h == a { assert Path(s, h, a, 0); }
    if Inside(s, s[h].value, a) {
      var n: nat :| Path(s, s[h].value, a, n);
      assert Path(s, h, a, n + 1);
    }
  }

  lemma InsideRoot<T>(s: Parents<T>, h: T, a: T)
    requires h in s && s[h].None?
    ensures Inside(s, h, a) <==> h == a
  {
    if h == a { assert Path(s, h, a, 0); }
  }

  lemma InsideTrans<T>(s: Parents<T>, x: T, y: T, z: T)
    requires Inside(s, x, y) && Inside(s, y, z)
    ensures Inside(s, x, z)
  {
    var m: nat :| Path(s, x, y, m);
    var n: nat :| Path(s, y, z, n);
    PathTrans(s, x, y, z, m, n);
  }

  lemma {:induction false} HeightAlong<T>(s: Parents<T>, h: T, a: T, n: nat, m: nat)
    requires Path(s, h, a, n) && Height(s, h, m)
    ensures n <= m && Height(s, a, m - n)
    decreases n
  {
    if n != 0 { HeightAlong(s, s[h].value, a, n - 1, m - 1); }
  }

  lemma {:induction false} HeightIsUnique<T>(s: Parents<T>, h: T, m: nat, n: nat)
    requires Height(s, h, m) && Height(s, h, n)
    ensures m == n
    decreases m
  {
    if m != 0 && n != 0 { HeightIsUnique(s, s[h].value, m - 1, n - 1); }
  }

  /** Nothing is inside anything that is inside it. */
  lemma NoCycle<T>(s: Parents<T>, h: T, a: T)
    requires Rooted(s, h) && Inside(s, h, a) && Inside(s, a, h)
    ensures h == a
  {
    var m: nat :| Height(s, h, m);
    var n: nat :| Path(s, h, a, n);
    var k: nat :| Path(s, a, h, k);
    PathTrans(s, h, a, h, n, k);
    HeightAlong(s, h, h, n + k, m);
    HeightIsUnique(s, h, m, m - (n + k));
  }

  lemma NoSelfParent<T>(s: Parents<T>, h: T)
    requires h in s && Acyclic(s)
    ensures s[h] != Some(h)
  {
    var m: nat :| Height(s, h, m);
    if s[h] == Some(h) {
      assert Path(s, h, h, 0);
      assert Path(s, h, h, 1);
      HeightAlong(s, h, h, 1, m);
      HeightIsUnique(s, h, m, m - 1);
    }
  }

  /** A parent is not inside its child. */
  lemma ChildIsNotAbove<T>(s: Parents<T>, h: T, c: T)
    requires Acyclic(s) && h in s && c in s && s[c] == Some(h)
    ensures !Inside(s, h, c)
  {
    if Inside(s, h, c) {
      InsideSelf(s, h);
      InsideUp(s, c, h);
      NoCycle(s, h, c);
      NoSelfParent(s, h);
      assert false;
    }
  }

  lemma {:induction false} ChildOnPath<T>(s: Parents<T>, n: T, h: T, k: nat) returns (c: T)
    requires Path(s, n, h, k) && n != h
    ensures c in s && s[c] == Some(h) && Inside(s, n, c)
    decreases k
  {
    if s[n].value == h {
      c := n;
      InsideSelf(s, n);
    } else {
      c := ChildOnPath(s, s[n].value, h, k - 1);
      InsideUp(s, n, c);
    }
  }

  lemma {:induction false} Smaller<T>(a: set<T>, b: set<T>)
    requires a < b
    ensures |a| < |b|
  {
    var x :| x in b && x !in a;
    if a != b - {x} { Smaller(a, b - {x}); }
  }

  lemma FewerBelow<T>(all: set<T>, above: set<T>, h: T)
    requires h in all && h !in above
    ensures |all - (above + {h})| < |all - above|
  {
    Smaller(all - (above + {h}), all - above);
  }
}
