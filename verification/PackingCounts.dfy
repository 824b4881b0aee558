/** How much is inside each row of the packing tree, in one pass from the last row to the first. */
module PackingCounts {
  import opened Basics
  import opened Hierarchy
  import opened PackingTree
  import HandlingUnits

  /** How many of the rows satisfy `p`. */
  ghost function Count(out: seq<Id>, p: Id -> bool): nat {
    var n := |out| - 1;
    if |out| == 0 then 0 else Count(out[..n], p) + if p(out[n]) then 1 else 0
  }

  function IsProduct(): Id -> bool { (id: Id) => id.ProductId? }

  function IsHu(): Id -> bool { (id: Id) => id.HuId? }

  /** The rows of a kind in the subtree of `id`. */
  ghost function InSubtree(t: Tree, id: Id, kind: Id -> bool): Id -> bool {
    (x: Id) => kind(x) && Inside(t.parent, x, id)
  }

  ghost function BelowIt(t: Tree, id: Id, kind: Id -> bool): Id -> bool {
    (x: Id) => kind(x) && x != id && Inside(t.parent, x, id)
  }

  /** All nodes of the tree, each once and after its parent. */
  ghost predicate Listed(t: Tree, out: seq<Id>) {
    && Sound(t)
    && Distinct(out)
    && (forall id :: id in out <==> id in t.parent)
    && forall i :: 0 <= i < |out| && t.parent[out[i]].Some? ==> t.parent[out[i]].value in out[..i]
  }

  /** Every row has the number of product rows in its subtree, and of the units below it. */
  ghost predicate Counted(t: Tree, out: seq<Id>, products: seq<nat>, units: seq<nat>) {
    |products| == |units| == |out|
    && forall i :: 0 <= i < |out| ==>
        products[i] == Count(out, InSubtree(t, out[i], IsProduct())) &&
            units[i] == Count(out, BelowIt(t, out[i], IsHu()))
  }

  method Index(out: seq<Id>) returns (index: map<Id, nat>)
    requires Distinct(out)
    ensures Indexed(out, index)
  {
    index := map[];
    for i := 0 to |out|
      invariant forall j :: 0 <= j < i ==> out[j] in index && index[out[j]] == j
    {
      index := index[out[i] := i];
    }
  }

  method CountContents(t: Tree, out: seq<Id>) returns (products: seq<nat>, units: seq<nat>)
    requires Listed(t, out)
    ensures Counted(t, out, products, units)
  {
    var index := Index(out);
    products := seq(|out|, i requires 0 <= i < |out| => Own(out[i], IsProduct()));
    units := seq(|out|, _ => 0);
    AtFirst(t, out, products, IsProduct());
    AtFirst(t, out, Including(out, units), IsHu());
    var n := |out|;
    while n > 0
      invariant 0 <= n <= |out| && BothAccumulated(t, out, products, units, n)
    {
      var row := n - 1;
      ParentIsIndexed(t, out, index, row);
      var p := t.parent[out[row]];
      if p.Some? {
        var m := index[p.value];
        Reported(t, out, products, units, row, n, m);
        products, units := products[m := products[m] + products[row]], units[m := units[m] + (units[row] + Own(out[row],
            IsHu()))];
      } else {
        BothPassedRoot(t, out, products, units, row, n);
      }
      n := row;
    }
    assert n == 0;
    Finished(t, out, products, units);
  }

  ghost predicate Indexed(out: seq<Id>, index: map<Id, nat>) {
    forall i :: 0 <= i < |out| ==> out[i] in index && index[out[i]] == i
  }

  lemma ParentIsIndexed(t: Tree, out: seq<Id>, index: map<Id, nat>, k: nat)
    requires Listed(t, out) && Indexed(out, index) && k < |out|
    ensures out[k] in t.parent
    ensures t.parent[out[k]].Some? ==>
        var p := t.parent[out[k]].value; p in index && index[p] < |out| && out[index[p]] == p
  {
    assert out[k] in out;
    if t.parent[out[k]].Some? { var m := ParentIsEarlier(t, out, k); }
  }

  /** The unit count leaves out the row itself. */
  ghost predicate BothAccumulated(t: Tree, out: seq<Id>, products: seq<nat>, units: seq<nat>, k: nat) {
    |units| == |out| && Accumulated(t, out, products, k, IsProduct()) &&
        Accumulated(t, out, Including(out, units), k, IsHu())
  }

  function Own(id: Id, kind: Id -> bool): nat { if kind(id) then 1 else 0 }

  ghost function Including(out: seq<Id>, units: seq<nat>): seq<nat>
    requires |units| == |out|
  {
    seq(|out|, i requires 0 <= i < |out| => units[i] + Own(out[i], IsHu()))
  }

  /** Rows that `id` has heard of once the rows from `k` on have reported to their parents. */
  ghost function Heard(t: Tree, out: seq<Id>, id: Id, k: nat, kind: Id -> bool): Id -> bool {
    (x: Id) =>
      kind(x) &&
      (x == id || exists j ::
        k <= j < |out| && out[j] in t.parent && t.parent[out[j]] == Some(id) && Inside(t.parent, x, out[j]))
  }

  ghost predicate Accumulated(t: Tree, out: seq<Id>, totals: seq<nat>, k: nat, kind: Id -> bool) {
    |totals| == |out| && forall i :: 0 <= i < |out| ==> totals[i] == Count(out, Heard(t, out, out[i], k, kind))
  }

  // ---------------------------------------------------------------- counting

  lemma {:induction false} CountAgree(out: seq<Id>, p: Id -> bool, q: Id -> bool)
    requires forall x <- out :: p(x) <==> q(x)
    ensures Count(out, p) == Count(out, q)
  {
    if |out| != 0 {
      var n := |out| - 1;
      assert out[n] in out && forall x <- out[..n] :: x in out;
      CountAgree(out[..n], p, q);
    }
  }

  lemma {:induction false} CountSplit(out: seq<Id>, p: Id -> bool, q: Id -> bool, r: Id -> bool)
    requires forall x <- out :: (p(x) <==> q(x) || r(x)) && !(q(x) && r(x))
    ensures Count(out, p) == Count(out, q) + Count(out, r)
  {
    if |out| != 0 {
      var n := |out| - 1;
      assert out[n] in out && forall x <- out[..n] :: x in out;
      CountSplit(out[..n], p, q, r);
    }
  }

  function Only(id: Id, kind: Id -> bool): Id -> bool { (x: Id) => kind(x) && x == id }

  lemma {:induction false} CountNone(out: seq<Id>, id: Id, kind: Id -> bool)
    requires id !in out
    ensures Count(out, Only(id, kind)) == 0
  {
    if |out| != 0 {
      var n := |out| - 1;
      assert out[n] in out && forall x <- out[..n] :: x in out;
      CountNone(out[..n], id, kind);
    }
  }

  lemma {:induction false} CountOnly(out: seq<Id>, i: nat, kind: Id -> bool)
    requires Distinct(out) && i < |out|
    ensures Count(out, Only(out[i], kind)) == Own(out[i], kind)
  {
    var n := |out| - 1;
    if i < n { CountOnly(out[..n], i, kind); } else { CountNone(out[..n], out[n], kind); }
  }

  // ---------------------------------------------------------------- the pass

  lemma AtFirst(t: Tree, out: seq<Id>, totals: seq<nat>, kind: Id -> bool)
    requires Distinct(out) && |totals| == |out| && forall i :: 0 <= i < |out| ==> totals[i] == Own(out[i], kind)
    ensures Accumulated(t, out, totals, |out|, kind)
  {
    forall i | 0 <= i < |out| ensures totals[i] == Count(out, Heard(t, out, out[i], |out|, kind)) {
      CountOnly(out, i, kind);
      CountAgree(out, Only(out[i], kind), Heard(t, out, out[i], |out|, kind));
    }
  }

  lemma ParentIsEarlier(t: Tree, out: seq<Id>, k: nat) returns (m: nat)
    requires Listed(t, out) && k < |out| && out[k] in t.parent && t.parent[out[k]].Some?
    ensures m < k && out[m] == t.parent[out[k]].value
  {
    m :| 0 <= m < |out[..k]| && out[..k][m] == t.parent[out[k]].value;
  }

  /** A row reports what it has heard of, which by then is all of its subtree. */
  lemma RowIsComplete(t: Tree, out: seq<Id>, k: nat, from: nat, x: Id, kind: Id -> bool)
    requires Listed(t, out) && k < |out| && from <= k + 1
    ensures Heard(t, out, out[k], from, kind)(x) <==> InSubtree(t, out[k], kind)(x)
  {
    var c := out[k];
    InsideSplits(t, x, c);
    KidsAre(t, Some(c));
    if InsideAny(t, x, Kids(t, Some(c))) {
      var d :| d in Kids(t, Some(c)) && Inside(t.parent, x, d);
      var j :| 0 <= j < |out| && out[j] == d;
      var m := ParentIsEarlier(t, out, j);
      assert j > k;
    }
    if j :| from <= j < |out| && out[j] in t.parent && t.parent[out[j]] == Some(c) && Inside(t.parent, x, out[j]) {
      assert out[j] in Kids(t, Some(c));
    }
  }

  lemma ParentHears(t: Tree, out: seq<Id>, k: nat, p: Id, x: Id, kind: Id -> bool)
    requires Listed(t, out) && k < |out| && t.parent[out[k]] == Some(p)
    ensures Heard(t, out, p, k, kind)(x) <==> Heard(t, out, p, k + 1, kind)(x) || InSubtree(t, out[k], kind)(x)
    ensures !(Heard(t, out, p, k + 1, kind)(x) && InSubtree(t, out[k], kind)(x))
  {
    var c := out[k];
    assert c in out;
    if Inside(t.parent, x, c) {
      if x == p {
        ChildIsNotAbove(t.parent, p, c);
        assert false;
      }
      forall j | k + 1 <= j < |out| && out[j] in t.parent && t.parent[out[j]] == Some(p)
        ensures !Inside(t.parent, x, out[j])
      {
        SiblingsAreApart(t, c, out[j], x);
      }
    }
  }

  lemma RowReports(t: Tree, out: seq<Id>, k: nat, n: nat, m: nat, kind: Id -> bool)
    requires Listed(t, out) && n == k + 1 && k < |out| && m < |out| && t.parent[out[k]] == Some(out[m])
    ensures Count(out, Heard(t, out, out[m], k, kind)) ==
        Count(out, Heard(t, out, out[m], n, kind)) + Count(out, Heard(t, out, out[k], n, kind))
  {
    var now, before, part := Heard(t, out, out[m], k, kind), Heard(t, out, out[m], n, kind), Heard(t, out, out[k], n,
        kind);
    forall x | x in out ensures (now(x) <==> before(x) || part(x)) && !(before(x) && part(x)) {
      RowIsComplete(t, out, k, n, x, kind);
      ParentHears(t, out, k, out[m], x, kind);
    }
    CountSplit(out, now, before, part);
  }

  lemma OthersHearNothing(t: Tree, out: seq<Id>, id: Id, k: nat, n: nat, kind: Id -> bool)
    requires n == k + 1 && k < |out| && out[k] in t.parent && t.parent[out[k]] != Some(id)
    ensures Count(out, Heard(t, out, id, k, kind)) == Count(out, Heard(t, out, id, n, kind))
  {
    CountAgree(out, Heard(t, out, id, k, kind), Heard(t, out, id, n, kind));
  }

  lemma Passed(t: Tree, out: seq<Id>, totals: seq<nat>, k: nat, n: nat, m: nat, kind: Id -> bool)
    requires Listed(t, out) && n == k + 1 && k < |out| && m < |out| && out[k] in t.parent
    requires t.parent[out[k]] == Some(out[m])
    requires Accumulated(t, out, totals, n, kind)
    ensures Accumulated(t, out, totals[m := totals[m] + totals[k]], k, kind)
  {
    var after := totals[m := totals[m] + totals[k]];
    forall i | 0 <= i < |out| ensures after[i] == Count(out, Heard(t, out, out[i], k, kind)) {
      if i == m { RowReports(t, out, k, n, m, kind); } else { OthersHearNothing(t, out, out[i], k, n, kind); }
    }
  }

  lemma PassedRoot(t: Tree, out: seq<Id>, totals: seq<nat>, k: nat, n: nat, kind: Id -> bool)
    requires Listed(t, out) && n == k + 1 && k < |out| && out[k] in t.parent && t.parent[out[k]].None?
    requires Accumulated(t, out, totals, n, kind)
    ensures Accumulated(t, out, totals, k, kind)
  {
    forall i | 0 <= i < |out|
      ensures totals[i] == Count(out, Heard(t, out, out[i], k, kind))
    {
      OthersHearNothing(t, out, out[i], k, n, kind);
    }
  }

  lemma AllPassed(t: Tree, out: seq<Id>, totals: seq<nat>, kind: Id -> bool)
    requires Listed(t, out) && Accumulated(t, out, totals, 0, kind)
    ensures forall i :: 0 <= i < |out| ==> totals[i] == Count(out, InSubtree(t, out[i], kind))
  {
    forall i | 0 <= i < |out| ensures totals[i] == Count(out, InSubtree(t, out[i], kind)) {
      forall x | x in out
        ensures Heard(t, out, out[i], 0, kind)(x) <==> InSubtree(t, out[i], kind)(x)
      {
        RowIsComplete(t, out, i, 0, x, kind);
      }
      CountAgree(out, Heard(t, out, out[i], 0, kind), InSubtree(t, out[i], kind));
    }
  }

  lemma WithoutItself(t: Tree, out: seq<Id>, i: nat, kind: Id -> bool)
    requires Listed(t, out) && i < |out|
    ensures Count(out, InSubtree(t, out[i], kind)) == Count(out, BelowIt(t, out[i], kind)) + Own(out[i], kind)
  {
    assert out[i] in out;
    InsideSelf(t.parent, out[i]);
    CountSplit(out, InSubtree(t, out[i], kind), BelowIt(t, out[i], kind), Only(out[i], kind));
    CountOnly(out, i, kind);
  }

  lemma IncludingAdds(out: seq<Id>, units: seq<nat>, k: nat, m: nat)
    requires |units| == |out| && k < |out| && m < |out|
    ensures var all := Including(out, units);
        Including(out, units[m := units[m] + (units[k] + Own(out[k], IsHu()))]) == all[m := all[m] + all[k]]
  {
  }

  lemma UnitsReported(t: Tree, out: seq<Id>, units: seq<nat>, k: nat, n: nat, m: nat)
    requires Listed(t, out) && n == k + 1 && k < |out| && m < |out| && out[k] in t.parent
    requires t.parent[out[k]] == Some(out[m])
    requires |units| == |out| && Accumulated(t, out, Including(out, units), n, IsHu())
    ensures Accumulated(t, out, Including(out, units[m := units[m] + (units[k] + Own(out[k], IsHu()))]), k, IsHu())
  {
    Passed(t, out, Including(out, units), k, n, m, IsHu());
    IncludingAdds(out, units, k, m);
  }

  lemma Reported(t: Tree, out: seq<Id>, products: seq<nat>, units: seq<nat>, k: nat, n: nat, m: nat)
    requires Listed(t, out) && n == k + 1 && k < |out| && m < |out| && out[k] in t.parent
    requires t.parent[out[k]] == Some(out[m])
    requires BothAccumulated(t, out, products, units, n)
    ensures BothAccumulated(t, out, products[m := products[m] + products[k]],
        units[m := units[m] + (units[k] + Own(out[k], IsHu()))], k)
  {
    Passed(t, out, products, k, n, m, IsProduct());
    UnitsReported(t, out, units, k, n, m);
  }

  lemma BothPassedRoot(t: Tree, out: seq<Id>, products: seq<nat>, units: seq<nat>, k: nat, n: nat)
    requires Listed(t, out) && n == k + 1 && k < |out| && out[k] in t.parent && t.parent[out[k]].None?
    requires BothAccumulated(t, out, products, units, n)
    ensures BothAccumulated(t, out, products, units, k)
  {
    PassedRoot(t, out, products, k, n, IsProduct());
    PassedRoot(t, out, Including(out, units), k, n, IsHu());
  }

  lemma Finished(t: Tree, out: seq<Id>, products: seq<nat>, units: seq<nat>)
    requires Listed(t, out) && BothAccumulated(t, out, products, units, 0)
    ensures Counted(t, out, products, units)
  {
    AllPassed(t, out, products, IsProduct());
    AllPassed(t, out, Including(out, units), IsHu());
    forall i | 0 <= i < |out|
      ensures units[i] == Count(out, BelowIt(t, out[i], IsHu()))
    {
      WithoutItself(t, out, i, IsHu());
    }
  }

  /** The rows of a search are such a list. */
  lemma RowsAreListed(f: Found, units: HandlingUnits.Units)
    requires Consistent(f, units)
    ensures Listed(TreeOf(f), Rows(f))
  {
    TreeIsSound(f, units);
    RowsShowAllOnce(f, units);
    forall id ensures id in Rows(f) <==> id in TreeOf(f).parent { TreeHas(f, units, id); }
    forall i | 0 <= i < |Rows(f)| && TreeOf(f).parent[Rows(f)[i]].Some?
      ensures TreeOf(f).parent[Rows(f)[i]].value in Rows(f)[..i]
    {
      TreeHas(f, units, Rows(f)[i]);
    }
  }
}
