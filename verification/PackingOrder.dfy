/** The order of the packing tree's rows: depth first, and within a container as the search found things. */
module PackingOrder {
  import opened Basics
  import opened Hierarchy
  import opened Sorting
  import opened PackingTree
  import HandlingUnits

  // ---------------------------------------------------------------- depth first

  /** Everything between a row and one below it is below it, too. */
  ghost predicate DepthFirst(t: Tree, out: seq<Id>) {
    forall i, j, k :: 0 <= i < j < k < |out| && Inside(t.parent, out[k], out[i]) ==> Inside(t.parent, out[j], out[i])
  }

  /** What the first of the siblings lists is inside it, what the others list is not. */
  lemma FirstAndOthers(t: Tree, ks: seq<Id>, above: set<Id>, p: Option<Id>, x: Id)
    requires Beneath(t, ks, above) && Siblings(t, ks, p) && |ks| > 0
    ensures var h := ks[0]; var inner, others := Emit(t, Kids(t, Some(h)), above + {h}), Emit(t, ks[1..], above);
      && (x in inner ==> Inside(t.parent, x, h) && x != h)
      && (x in others ==> !Inside(t.parent, x, h))
  {
    var h := ks[0];
    EmitStep(t, ks, above);
    SiblingsTail(t, ks, p);
    var inner, others := Emit(t, Kids(t, Some(h)), above + {h}), Emit(t, ks[1..], above);
    EmitsWhatIsInside(t, Kids(t, Some(h)), above + {h}, x);
    EmitsWhatIsInside(t, ks[1..], above, x);
    InsideSplits(t, x, h);
    if x in inner { NotInOwnKids(t, h, above); }
    if x in others && Inside(t.parent, x, h) {
      var k :| k in ks[1..] && Inside(t.parent, x, k);
      SiblingsAreApart(t, h, k, x);
    }
  }

  lemma {:induction false} EmitsDepthFirst(t: Tree, ks: seq<Id>, above: set<Id>, p: Option<Id>)
    requires Beneath(t, ks, above) && Siblings(t, ks, p)
    ensures DepthFirst(t, Emit(t, ks, above))
    decreases |t.parent.Keys - above|, |ks|
  {
    if |ks| > 0 {
      var h := ks[0];
      EmitStep(t, ks, above);
      SiblingsTail(t, ks, p);
      KidsAre(t, Some(h));
      var inner, others := Emit(t, Kids(t, Some(h)), above + {h}), Emit(t, ks[1..], above);
      EmitsDepthFirst(t, Kids(t, Some(h)), above + {h}, Some(h));
      EmitsDepthFirst(t, ks[1..], above, p);
      forall x
        ensures x in inner ==> Inside(t.parent, x, h)
        ensures x in others ==> !Inside(t.parent, x, h)
      {
        FirstAndOthers(t, ks, above, p, x);
      }
      JoinDepthFirst(t, h, inner, others);
    }
  }

  lemma JoinDepthFirst(t: Tree, h: Id, inner: seq<Id>, others: seq<Id>)
    requires DepthFirst(t, inner) && DepthFirst(t, others)
    requires forall x <- inner :: Inside(t.parent, x, h)
    requires forall x <- others :: !Inside(t.parent, x, h)
    ensures DepthFirst(t, [h] + inner + others)
  {
    var out, m := [h] + inner + others, 1 + |inner|;
    forall i, j, k | 0 <= i < j < k < |out| && Inside(t.parent, out[k], out[i])
      ensures Inside(t.parent, out[j], out[i])
    {
      if i >= m {
        assert out[i] == others[i - m] && out[j] == others[j - m] && out[k] == others[k - m];
      } else {
        if k >= m {
          assert out[k] == others[k - m] && out[k] in others;
          if i > 0 {
            assert out[i] == inner[i - 1];
            InsideTrans(t.parent, out[k], out[i], h);
          }
          assert false;
        }
        assert out[j] == inner[j - 1] && out[k] == inner[k - 1];
        if i > 0 { assert out[i] == inner[i - 1]; }
      }
    }
  }

  // ---------------------------------------------------------------- siblings

  ghost predicate Precedes(s: seq<Id>, a: Id, b: Id) { exists i, j :: 0 <= i < j < |s| && s[i] == a && s[j] == b }

  /** No two rows of one parent have changed places. */
  ghost predicate KeepsOrder(t: Tree, out: seq<Id>) {
    forall i, j :: 0 <= i < j < |out| && AreSiblings(t, out[i], out[j]) ==> !Precedes(t.order, out[j], out[i])
  }

  predicate AreSiblings(t: Tree, a: Id, b: Id) { a in t.parent && b in t.parent && t.parent[a] == t.parent[b] }

  ghost predicate InTreeOrder(t: Tree, ks: seq<Id>) {
    forall i, j :: 0 <= i < j < |ks| ==> !Precedes(t.order, ks[j], ks[i])
  }

  lemma PrecedesLater(s: seq<Id>, a: Id, b: Id)
    requires |s| > 0 && Precedes(s[1..], a, b)
    ensures Precedes(s, a, b)
  {
    var i, j :| 0 <= i < j < |s[1..]| && s[1..][i] == a && s[1..][j] == b;
    assert s[i + 1] == a && s[j + 1] == b;
  }

  lemma FirstPrecedes(s: seq<Id>, b: Id)
    requires |s| > 0 && b in s[1..]
    ensures Precedes(s, s[0], b)
  {
    var j :| 0 <= j < |s[1..]| && s[1..][j] == b;
    assert s[j + 1] == b;
  }

  lemma {:induction false} FilterKeepsOrder(s: seq<Id>, keep: Id -> bool, i: nat, j: nat)
    requires i < j < |Filter(s, keep)|
    ensures Precedes(s, Filter(s, keep)[i], Filter(s, keep)[j])
  {
    var all, rest := Filter(s, keep), Filter(s[1..], keep);
    assert all == (if keep(s[0]) then [s[0]] else []) + rest;
    if keep(s[0]) && i == 0 {
      FilterMembers(s[1..], keep);
      assert all[j] == rest[j - 1] && rest[j - 1] in rest;
      FirstPrecedes(s, all[j]);
    } else {
      var less := if keep(s[0]) then 1 else 0;
      FilterKeepsOrder(s[1..], keep, i - less, j - less);
      PrecedesLater(s, all[i], all[j]);
    }
  }

  lemma NotBothWays(s: seq<Id>, a: Id, b: Id)
    requires Distinct(s) && Precedes(s, a, b)
    ensures !Precedes(s, b, a)
  {
  }

  lemma KidsAreInOrder(t: Tree, p: Option<Id>)
    requires Sound(t)
    ensures InTreeOrder(t, Kids(t, p))
  {
    var ks := Kids(t, p);
    forall i, j | 0 <= i < j < |ks| ensures !Precedes(t.order, ks[j], ks[i]) {
      FilterKeepsOrder(t.order, HasParent(t, p), i, j);
      NotBothWays(t.order, ks[i], ks[j]);
    }
  }

  predicate OfParent(t: Tree, x: Id, p: Option<Id>) { x in t.parent && t.parent[x] == p }

  ghost predicate ParentIsInside(t: Tree, x: Id, h: Id) {
    x in t.parent && t.parent[x].Some? && Inside(t.parent, t.parent[x].value, h)
  }

  lemma ParentOfInner(t: Tree, ks: seq<Id>, above: set<Id>, p: Option<Id>, x: Id)
    requires Beneath(t, ks, above) && Siblings(t, ks, p) && |ks| > 0
    requires x in Emit(t, Kids(t, Some(ks[0])), above + {ks[0]})
    ensures ParentIsInside(t, x, ks[0])
  {
    FirstAndOthers(t, ks, above, p, x);
    InsideUp(t.parent, x, ks[0]);
  }

  lemma ParentOfOther(t: Tree, ks: seq<Id>, above: set<Id>, p: Option<Id>, x: Id)
    requires Beneath(t, ks, above) && Siblings(t, ks, p) && |ks| > 0 && InTreeOrder(t, ks)
    requires x in Emit(t, ks[1..], above)
    ensures !ParentIsInside(t, x, ks[0]) && (OfParent(t, x, p) ==> !Precedes(t.order, x, ks[0]))
  {
    FirstAndOthers(t, ks, above, p, x);
    if ParentIsInside(t, x, ks[0]) { InsideUp(t.parent, x, ks[0]); }
    EmitStep(t, ks, above);
    EmitsWhatIsInside(t, ks[1..], above, x);
    if OfParent(t, x, p) { OtherSibling(t, ks, p, x); }
  }

  lemma NotInsideItself(t: Tree, h: Id, above: set<Id>)
    requires Beneath(t, [h], above)
    ensures !ParentIsInside(t, h, h)
  {
    if t.parent[h].Some? { ChildIsNotAbove(t.parent, t.parent[h].value, h); }
  }

  /** A later sibling is one of those given, and does not come before the first in the tree's order. */
  lemma OtherSibling(t: Tree, ks: seq<Id>, p: Option<Id>, x: Id)
    requires Sound(t) && Siblings(t, ks, p) && |ks| > 0 && InTreeOrder(t, ks)
    requires InsideAny(t, x, ks[1..]) && OfParent(t, x, p)
    ensures !Precedes(t.order, x, ks[0])
  {
    var k :| k in ks[1..] && Inside(t.parent, x, k);
    if x != k {
      assert Path(t.parent, x, x, 0);
      SiblingsAreApart(t, k, x, x);
    }
    var i :| 0 <= i < |ks[1..]| && ks[1..][i] == k;
    assert ks[i + 1] == x;
  }

  lemma SameParentInside(t: Tree, a: Id, b: Id, h: Id)
    requires AreSiblings(t, a, b)
    ensures ParentIsInside(t, a, h) == ParentIsInside(t, b, h)
  {
  }

  lemma JoinInOrder(t: Tree, h: Id, p: Option<Id>, inner: seq<Id>, others: seq<Id>)
    requires KeepsOrder(t, inner) && KeepsOrder(t, others) && OfParent(t, h, p) && !ParentIsInside(t, h, h)
    requires forall x <- inner :: ParentIsInside(t, x, h)
    requires forall x <- others :: !ParentIsInside(t, x, h) && (OfParent(t, x, p) ==> !Precedes(t.order, x, h))
    ensures KeepsOrder(t, [h] + inner + others)
  {
    var out, m := [h] + inner + others, 1 + |inner|;
    forall i, j | 0 <= i < j < |out| && AreSiblings(t, out[i], out[j]) ensures !Precedes(t.order, out[j], out[i]) {
      SameParentInside(t, out[i], out[j], h);
      if j < m { assert out[j] == inner[j - 1] && out[j] in inner; } else { assert out[j] == others[j - m]; }
      assert i == 0 || i >= m || (out[i] == inner[i - 1] && out[i] in inner);
      if i >= m { assert out[i] == others[i - m]; }
    }
  }

  lemma {:induction false} EmitsInOrder(t: Tree, ks: seq<Id>, above: set<Id>, p: Option<Id>)
    requires Beneath(t, ks, above) && Siblings(t, ks, p) && InTreeOrder(t, ks)
    ensures KeepsOrder(t, Emit(t, ks, above))
    decreases |t.parent.Keys - above|, |ks|
  {
    if |ks| > 0 {
      var h := ks[0];
      EmitStep(t, ks, above);
      SiblingsTail(t, ks, p);
      KidsAre(t, Some(h));
      KidsAreInOrder(t, Some(h));
      EmitsInOrder(t, Kids(t, Some(h)), above + {h}, Some(h));
      EmitsInOrder(t, ks[1..], above, p);
      JoinsInOrder(t, ks, above, p);
    }
  }

  lemma JoinsInOrder(t: Tree, ks: seq<Id>, above: set<Id>, p: Option<Id>)
    requires Beneath(t, ks, above) && Siblings(t, ks, p) && |ks| > 0 && InTreeOrder(t, ks)
    requires KeepsOrder(t, Emit(t, Kids(t, Some(ks[0])), above + {ks[0]})) && KeepsOrder(t, Emit(t, ks[1..], above))
    ensures KeepsOrder(t, Emit(t, ks, above))
  {
    var h := ks[0];
    var inner, others := Emit(t, Kids(t, Some(h)), above + {h}), Emit(t, ks[1..], above);
    EmitStep(t, ks, above);
    forall x | x in inner ensures ParentIsInside(t, x, h) { ParentOfInner(t, ks, above, p, x); }
    forall x | x in others
      ensures !ParentIsInside(t, x, h) && (OfParent(t, x, p) ==> !Precedes(t.order, x, h))
    {
      ParentOfOther(t, ks, above, p, x);
    }
    SiblingsTail(t, ks, p);
    NotInsideItself(t, h, above);
    JoinInOrder(t, h, p, inner, others);
  }

  // ---------------------------------------------------------------- the rows of a search

  /** A unit stands in its parent where that is shown, else in its bin. */
  lemma UnitsHangRight(f: Found, units: HandlingUnits.Units, h: Hu)
    requires Consistent(f, units) && h in f.hus
    ensures ParentOf(f, HuId(h.name)) ==
        Some(if h.parent.Some? && exists o <- f.hus :: o.name == h.parent.value then HuId(h.parent.value)
          else BinId(h.bin))
  {
    FindsHu(f.hus, h.name);
    var found := FindHu(f.hus, h.name).value;
    var i :| 0 <= i < |f.hus| && f.hus[i] == h;
    var j :| 0 <= j < |f.hus| && f.hus[j] == found;
    assert i == j;
  }

  /** A row for what the balance is of, in its unit where that is shown, else in its bin. */
  ghost predicate IsProductRow(f: Found, row: Id, x: Balance) {
    && row in Rows(f) && row.ProductId? && row.key == x.key
    && ParentOf(f, row) == Some(
      if x.unit.Some? && exists o <- f.hus :: o.name == x.unit.value then HuId(x.unit.value) else BinId(x.bin))
  }

  lemma BinsHangRight(f: Found, units: HandlingUnits.Units, b: Bin)
    requires Consistent(f, units) && b in f.bins
    ensures ParentOf(f, BinId(b.name)) == Some(SectionId(b.section))
  {
    FindsBin(f.bins, b.name);
    var found := FindBin(f.bins, b.name).value;
    var i :| 0 <= i < |f.bins| && f.bins[i] == b;
    var j :| 0 <= j < |f.bins| && f.bins[j] == found;
    assert i == j;
  }

  /** Every balance found has a product row, in its unit where that is shown, else in its bin. */
  lemma ProductsHangRight(f: Found, units: HandlingUnits.Units, x: Balance)
    requires Consistent(f, units) && x in f.balances
    ensures exists row :: IsProductRow(f, row, x)
  {
    RowsShowAllOnce(f, units);
    assert Shows(f, ProductOf(f, x));
    assert IsProductRow(f, ProductOf(f, x), x);
  }

  /** The rows are listed depth first, and siblings in the tree's order. */
  lemma RowsAreDepthFirst(f: Found, units: HandlingUnits.Units)
    requires Consistent(f, units)
    ensures DepthFirst(TreeOf(f), Rows(f)) && KeepsOrder(TreeOf(f), Rows(f))
  {
    var t := TreeOf(f);
    TreeIsSound(f, units);
    RootsAreBeneath(t);
    KidsAre(t, None);
    KidsAreInOrder(t, None);
    EmitsDepthFirst(t, Kids(t, None), {}, None);
    EmitsInOrder(t, Kids(t, None), {}, None);
  }

  ghost predicate IsProduct(f: Found, id: Id) { exists o <- f.balances :: ProductOf(f, o) == id }

  /** One comes before the other in what the search found; in a container the units come first. */
  ghost predicate FoundBefore(f: Found, a: Id, b: Id) {
    match (a, b)
    case (SectionId(x), SectionId(y)) =>
      exists i, j :: 0 <= i < j < |f.sections| && f.sections[i] == x && f.sections[j] == y
    case (BinId(x), BinId(y)) => exists i, j :: 0 <= i < j < |f.bins| && f.bins[i].name == x && f.bins[j].name == y
    case (HuId(x), HuId(y)) => exists i, j :: 0 <= i < j < |f.hus| && f.hus[i].name == x && f.hus[j].name == y
    case (HuId(x), ProductId(_, _)) => x in Names(f.hus) && IsProduct(f, b)
    case (ProductId(_, _), ProductId(_, _)) =>
      IsProduct(f, a) && IsProduct(f, b) && f.before(a, b) && !f.before(b, a)
    case _ => false
  }

  lemma PrecedesWithin(x: seq<Id>, s: seq<Id>, y: seq<Id>, i: nat, j: nat)
    requires i < j < |s|
    ensures Precedes(x + s + y, s[i], s[j])
  {
    var all := x + s + y;
    assert all[|x| + i] == s[i] && all[|x| + j] == s[j];
  }

  lemma PrecedesAcross(x: seq<Id>, s: seq<Id>, y: seq<Id>, i: nat, j: nat)
    requires i < |s| && j < |y|
    ensures Precedes(x + s + y, s[i], y[j])
  {
    var all := x + s + y;
    assert all[|x| + i] == s[i] && all[|x| + |s| + j] == y[j];
  }

  lemma OrderInParts(f: Found)
    ensures var s, b, h, p := SectionIds(f), BinIds(f), HuIds(f), ProductIds(f);
      && Order(f) == [] + s + (b + h + p) && Order(f) == s + b + (h + p)
      && Order(f) == (s + b) + h + p && Order(f) == (s + b + h) + p + []
  {
  }

  lemma ProductsInOrder(f: Found, a: Id, b: Id) returns (i: nat, j: nat)
    requires Preorder(f.before) && a in ProductIds(f) && b in ProductIds(f) && f.before(a, b) && !f.before(b, a)
    ensures i < j < |ProductIds(f)| && ProductIds(f)[i] == a && ProductIds(f)[j] == b
  {
    SortSorts(Products(f, f.balances), f.before);
    i :| 0 <= i < |ProductIds(f)| && ProductIds(f)[i] == a;
    j :| 0 <= j < |ProductIds(f)| && ProductIds(f)[j] == b;
    if j <= i { assert false; }
  }

  lemma ProductIsOrdered(f: Found, a: Id, b: Id)
    requires Preorder(f.before) && b.ProductId? && (a.HuId? || a.ProductId?) && FoundBefore(f, a, b)
    ensures Precedes(Order(f), a, b)
  {
    var hs, ps, front := HuIds(f), ProductIds(f), SectionIds(f) + BinIds(f);
    ProductIdsAre(f);
    OrderInParts(f);
    assert IsProduct(f, b) && b in ps;
    if a.HuId? {
      var i :| 0 <= i < |f.hus| && f.hus[i].name == a.name;
      var j :| 0 <= j < |ps| && ps[j] == b;
      PrecedesAcross(front, hs, ps, i, j);
    } else {
      assert IsProduct(f, a) && a in ps;
      var i, j := ProductsInOrder(f, a, b);
      PrecedesWithin(front + hs, ps, [], i, j);
    }
  }

  lemma FoundIsOrdered(f: Found, a: Id, b: Id)
    requires Preorder(f.before) && FoundBefore(f, a, b)
    ensures Precedes(Order(f), a, b)
  {
    var ss, bs, hs, ps := SectionIds(f), BinIds(f), HuIds(f), ProductIds(f);
    OrderInParts(f);
    match (a, b)
    case (SectionId(x), SectionId(y)) =>
      var i, j :| 0 <= i < j < |f.sections| && f.sections[i] == x && f.sections[j] == y;
      PrecedesWithin([], ss, bs + hs + ps, i, j);
    case (BinId(x), BinId(y)) =>
      var i, j :| 0 <= i < j < |f.bins| && f.bins[i].name == x && f.bins[j].name == y;
      PrecedesWithin(ss, bs, hs + ps, i, j);
    case (HuId(x), HuId(y)) =>
      var i, j :| 0 <= i < j < |f.hus| && f.hus[i].name == x && f.hus[j].name == y;
      PrecedesWithin(ss + bs, hs, ps, i, j);
    case _ => ProductIsOrdered(f, a, b);
  }

  /** In every container the rows come as the search found them: units in its order first, then products in theirs. */
  lemma SiblingsComeAsFound(f: Found, units: HandlingUnits.Units, p: nat, q: nat)
    requires Consistent(f, units) && Preorder(f.before) && p < |Rows(f)| && q < |Rows(f)|
    requires ParentOf(f, Rows(f)[p]) == ParentOf(f, Rows(f)[q]) && FoundBefore(f, Rows(f)[p], Rows(f)[q])
    ensures p < q
  {
    var a, b := Rows(f)[p], Rows(f)[q];
    RowsAreDepthFirst(f, units);
    RowsShowAllOnce(f, units);
    FoundIsOrdered(f, a, b);
    TreeHas(f, units, a);
    TreeHas(f, units, b);
    if q < p { assert AreSiblings(TreeOf(f), Rows(f)[q], Rows(f)[p]); }
    if q == p {
      OrderIs(f, units);
      NotBothWays(Order(f), a, b);
    }
  }
}
