/** The packing center's tree: which handling units are shown, the rows in order, and how much is in each. */
module PackingTree {
  import opened Basics
  import opened Hierarchy
  import HandlingUnits
  import opened Sorting

  datatype Key = Key(product: string, batch: string, stockType: string)

  /** A row's id. A product row groups the stock of one container by product, batch and stock type. */
  datatype Id = SectionId(name: string) | BinId(name: string) | HuId(name: string) | ProductId(container: Id, key: Key)

  datatype Hu = Hu(name: string, parent: Option<string>, bin: string)

  datatype Bin = Bin(name: string, section: string)

  datatype Balance = Balance(unit: Option<string>, bin: string, key: Key)

  // ---------------------------------------------------------------- what is shown

  /** `name` is wanted, or lies `n` units deep in something wanted. */
  ghost predicate Reached(all: seq<Hu>, wanted: set<string>, name: string, n: nat)
    decreases n
  {
    if n == 0 then name in wanted
    else exists h <- all :: h.name == name && h.parent.Some? && Reached(all, wanted, h.parent.value, n - 1)
  }

  ghost predicate Wanted(all: seq<Hu>, wanted: set<string>, name: string) {
    exists n: nat :: Reached(all, wanted, name, n)
  }

  function Names(all: seq<Hu>): set<string> { set h | h in all :: h.name }

  predicate Joins(h: Hu, wanted: set<string>) { h.name !in wanted && h.parent.Some? && h.parent.value in wanted }

  ghost predicate AllWanted(all: seq<Hu>, wanted: set<string>, closed: set<string>) {
    forall name <- closed :: Wanted(all, wanted, name)
  }

  /** Whatever is nested inside a wanted unit belongs to it: passes over the list until one adds nothing. */
  method CloseOver(all: seq<Hu>, wanted: set<string>) returns (closed: set<string>)
    ensures forall name :: name in closed <==> Wanted(all, wanted, name)
  {
    closed := wanted;
    var grew := true;
    assert forall name <- closed :: Reached(all, wanted, name, 0);
    while grew
      invariant wanted <= closed && AllWanted(all, wanted, closed)
      invariant !grew ==> NoneJoins(all, |all|, closed)
      decreases Unwanted(all, closed), grew
    {
      closed, grew := OnePass(all, wanted, closed);
    }
    ClosedIsComplete(all, wanted, closed);
  }

  method OnePass(all: seq<Hu>, ghost wanted: set<string>, before: set<string>) returns (closed: set<string>, grew: bool)
    requires AllWanted(all, wanted, before)
    ensures PassedOver(all, wanted, before, closed, grew, |all|)
  {
    closed, grew := before, false;
    for i := 0 to |all|
      invariant PassedOver(all, wanted, before, closed, grew, i)
    {
      PassOn(all, wanted, before, closed, grew, i);
      if Joins(all[i], closed) { closed, grew := closed + {all[i].name}, true; }
    }
  }

  /** The state of a pass after `n` units: it has either added something, or found nothing to add so far. */
  ghost predicate PassedOver(all: seq<Hu>, wanted: set<string>, before: set<string>, closed: set<string>, grew: bool,
        n: nat)
    requires n <= |all|
  {
    && before <= closed
    && AllWanted(all, wanted, closed)
    && (grew ==> Unwanted(all, closed) < Unwanted(all, before))
    && (!grew ==> closed == before && NoneJoins(all, n, closed))
  }

  lemma PassOn(all: seq<Hu>, wanted: set<string>, before: set<string>, closed: set<string>, grew: bool, i: nat)
    requires i < |all| && PassedOver(all, wanted, before, closed, grew, i)
    ensures if Joins(all[i], closed) then PassedOver(all, wanted, before, closed + {all[i].name}, true, i + 1)
        else PassedOver(all, wanted, before, closed, grew, i + 1)
  {
    if Joins(all[i], closed) { Joined(all, wanted, closed, i); }
  }

  function Unwanted(all: seq<Hu>, closed: set<string>): nat { |Names(all) - closed| }

  ghost predicate NoneJoins(all: seq<Hu>, n: nat, closed: set<string>)
    requires n <= |all|
  {
    forall j :: 0 <= j < n ==> !Joins(all[j], closed)
  }

  lemma Joined(all: seq<Hu>, wanted: set<string>, closed: set<string>, i: nat)
    requires i < |all| && Joins(all[i], closed) && AllWanted(all, wanted, closed)
    ensures AllWanted(all, wanted, closed + {all[i].name})
    ensures Unwanted(all, closed + {all[i].name}) < Unwanted(all, closed)
  {
    JoinIsWanted(all, wanted, all[i]);
    assert all[i].name in Names(all);
    FewerBelow(Names(all), closed, all[i].name);
  }

  lemma JoinIsWanted(all: seq<Hu>, wanted: set<string>, h: Hu)
    requires h in all && h.parent.Some? && Wanted(all, wanted, h.parent.value)
    ensures Wanted(all, wanted, h.name)
  {
    var n: nat :| Reached(all, wanted, h.parent.value, n);
    assert Reached(all, wanted, h.name, n + 1);
  }

  lemma {:induction false} ReachedIsIn(all: seq<Hu>, wanted: set<string>, closed: set<string>, name: string, n: nat)
    requires wanted <= closed && NoneJoins(all, |all|, closed) && Reached(all, wanted, name, n)
    ensures name in closed
    decreases n
  {
    if n != 0 {
      var h :| h in all && h.name == name && h.parent.Some? && Reached(all, wanted, h.parent.value, n - 1);
      ReachedIsIn(all, wanted, closed, h.parent.value, n - 1);
    }
  }

  lemma ClosedIsComplete(all: seq<Hu>, wanted: set<string>, closed: set<string>)
    requires wanted <= closed && NoneJoins(all, |all|, closed)
    ensures forall name :: Wanted(all, wanted, name) ==> name in closed
  {
    forall name | Wanted(all, wanted, name) ensures name in closed {
      var n: nat :| Reached(all, wanted, name, n);
      ReachedIsIn(all, wanted, closed, name, n);
    }
  }

  // ---------------------------------------------------------------- the tree

  /** `order` lists every node; the children of a node come in that order. */
  datatype Tree = Tree(order: seq<Id>, parent: Parents<Id>)

  predicate Distinct<T(==)>(s: seq<T>) { forall i, j :: 0 <= i < j < |s| ==> s[i] != s[j] }

  ghost predicate Sound(t: Tree) {
    && Distinct(t.order)
    && (forall id :: id in t.order <==> id in t.parent)
    && (forall id <- t.parent.Keys :: t.parent[id].Some? ==> t.parent[id].value in t.parent)
    && Acyclic(t.parent)
  }

  function HasParent(t: Tree, p: Option<Id>): Id -> bool { (id: Id) => id in t.parent && t.parent[id] == p }

  function Kids(t: Tree, p: Option<Id>): seq<Id> { Filter(t.order, HasParent(t, p)) }

  /** None of `ks` is one of the nodes around it, which are `above`. */
  ghost predicate Beneath(t: Tree, ks: seq<Id>, above: set<Id>) {
    Sound(t) && forall k <- ks :: k in t.parent && k !in above && forall a <- above :: Inside(t.parent, k, a)
  }

  lemma KidsAre(t: Tree, p: Option<Id>)
    requires Sound(t)
    ensures forall id :: id in Kids(t, p) <==> id in t.parent && t.parent[id] == p
    ensures Distinct(Kids(t, p))
  {
    FilterMembers(t.order, HasParent(t, p));
    FilterDistinct(t.order, HasParent(t, p));
  }

  lemma {:induction false} FilterDistinct(s: seq<Id>, keep: Id -> bool)
    requires Distinct(s)
    ensures Distinct(Filter(s, keep))
  {
    if |s| != 0 {
      FilterDistinct(s[1..], keep);
      FilterMembers(s[1..], keep);
      var r := Filter(s[1..], keep);
      forall j | 0 <= j < |r| ensures r[j] != s[0] { assert r[j] in r && r[j] in s[1..]; }
    }
  }

  lemma KidsAreBeneath(t: Tree, h: Id, above: set<Id>)
    requires Beneath(t, [h], above)
    ensures Beneath(t, Kids(t, Some(h)), above + {h})
  {
    KidsAre(t, Some(h));
    assert h in [h];
    InsideSelf(t.parent, h);
    forall k | k in Kids(t, Some(h)) ensures k !in above + {h} && forall a <- above + {h} :: Inside(t.parent, k, a) {
      ChildIsNotAbove(t.parent, h, k);
      InsideSelf(t.parent, k);
      forall a | a in above + {h} ensures Inside(t.parent, k, a) { InsideUp(t.parent, k, a); }
      NoSelfParent(t.parent, k);
    }
  }

  lemma BeneathParts(t: Tree, ks: seq<Id>, above: set<Id>)
    requires Beneath(t, ks, above) && |ks| > 0
    ensures Beneath(t, [ks[0]], above) && Beneath(t, ks[1..], above)
  {
    assert ks[0] in ks && forall k <- ks[1..] :: k in ks;
  }

  lemma FewerLeft(t: Tree, h: Id, above: set<Id>)
    requires Beneath(t, [h], above)
    ensures |t.parent.Keys - (above + {h})| < |t.parent.Keys - above|
  {
    assert h in [h];
    FewerBelow(t.parent.Keys, above, h);
  }

  /** Each of `ks` followed by everything in it. A node that is around itself would be passed over; there is none
      beneath roots. */
  function Emit(t: Tree, ks: seq<Id>, above: set<Id>): seq<Id>
    decreases |t.parent.Keys - above|, |ks|
  {
    if |ks| == 0 then []
    else if ks[0] in above || ks[0] !in t.parent then Emit(t, ks[1..], above)
    else
      FewerBelow(t.parent.Keys, above, ks[0]);
      [ks[0]] + Emit(t, Kids(t, Some(ks[0])), above + {ks[0]}) + Emit(t, ks[1..], above)
  }

  /** One unfolding, with what the proofs need of the two smaller listings. */
  lemma EmitStep(t: Tree, ks: seq<Id>, above: set<Id>)
    requires Beneath(t, ks, above) && |ks| > 0
    ensures var h := ks[0];
      && h in t.parent && Emit(t, ks, above) == [h] + Emit(t, Kids(t, Some(h)), above + {h}) + Emit(t, ks[1..], above)
      && Beneath(t, [h], above) && Beneath(t, Kids(t, Some(h)), above + {h}) && Beneath(t, ks[1..], above)
      && |t.parent.Keys - (above + {h})| < |t.parent.Keys - above|
  {
    BeneathParts(t, ks, above);
    assert ks[0] in ks;
    FewerLeft(t, ks[0], above);
    KidsAreBeneath(t, ks[0], above);
  }

  class Listing {
    var out: seq<Id>

    constructor ()
      ensures out == []
    {
      out := [];
    }

    /** The walk below one node. In `order` the units come before the product rows, so one loop lists both, and a
        product row has nothing below it. */
    method Walk(t: Tree, p: Option<Id>, ghost above: set<Id>)
      requires Beneath(t, Kids(t, p), above)
      modifies this
      ensures out == old(out) + Emit(t, Kids(t, p), above)
      decreases |t.parent.Keys - above|
    {
      var ks := Kids(t, p);
      assert ks[0..] == ks;
      for i := 0 to |ks|
        invariant Beneath(t, ks[i..], above)
        invariant out + Emit(t, ks[i..], above) == old(out) + Emit(t, ks, above)
      {
        ghost var rest := ks[i..];
        assert rest[0] == ks[i] && rest[1..] == ks[i + 1..];
        EmitStep(t, rest, above);
        Associative(out, [ks[i]], Emit(t, Kids(t, Some(ks[i])), above + {ks[i]}), Emit(t, ks[i + 1..], above));
        out := out + [ks[i]];
        Walk(t, Some(ks[i]), above + {ks[i]});
      }
      assert Emit(t, ks[|ks|..], above) == [];
    }
  }

  lemma Associative<T>(a: seq<T>, b: seq<T>, c: seq<T>, d: seq<T>)
    ensures a + (b + c + d) == a + b + c + d
  {
  }

  // ---------------------------------------------------------------- every node once

  ghost predicate InsideAny(t: Tree, x: Id, ks: seq<Id>) { exists k <- ks :: Inside(t.parent, x, k) }

  lemma InsideSplits(t: Tree, x: Id, h: Id)
    requires Sound(t) && h in t.parent
    ensures Inside(t.parent, x, h) <==> x == h || InsideAny(t, x, Kids(t, Some(h)))
  {
    KidsAre(t, Some(h));
    InsideSelf(t.parent, h);
    if Inside(t.parent, x, h) && x != h {
      var n: nat :| Path(t.parent, x, h, n);
      var c := ChildOnPath(t.parent, x, h, n);
      assert c in Kids(t, Some(h));
    }
    if InsideAny(t, x, Kids(t, Some(h))) {
      var c :| c in Kids(t, Some(h)) && Inside(t.parent, x, c);
      InsideUp(t.parent, c, h);
      InsideTrans(t.parent, x, c, h);
    }
  }

  lemma InsideAnyParts(t: Tree, x: Id, ks: seq<Id>)
    requires |ks| > 0
    ensures InsideAny(t, x, ks) <==> Inside(t.parent, x, ks[0]) || InsideAny(t, x, ks[1..])
  {
    assert ks == [ks[0]] + ks[1..];
    assert forall k :: k in ks <==> k == ks[0] || k in ks[1..];
  }

  lemma InThree(x: Id, h: Id, a: seq<Id>, b: seq<Id>)
    ensures x in [h] + a + b <==> x == h || x in a || x in b
  {
  }

  lemma {:induction false} EmitsWhatIsInside(t: Tree, ks: seq<Id>, above: set<Id>, x: Id)
    requires Beneath(t, ks, above)
    ensures x in Emit(t, ks, above) <==> InsideAny(t, x, ks)
    decreases |t.parent.Keys - above|, |ks|
  {
    if |ks| != 0 {
      var h, rest := ks[0], ks[1..];
      EmitStep(t, ks, above);
      EmitsWhatIsInside(t, Kids(t, Some(h)), above + {h}, x);
      EmitsWhatIsInside(t, rest, above, x);
      InsideSplits(t, x, h);
      InsideAnyParts(t, x, ks);
      InThree(x, h, Emit(t, Kids(t, Some(h)), above + {h}), Emit(t, rest, above));
    }
  }

  /** Children of one parent. */
  ghost predicate Siblings(t: Tree, ks: seq<Id>, p: Option<Id>) {
    Distinct(ks) && forall k <- ks :: k in t.parent && t.parent[k] == p
  }

  lemma {:induction false} Chained(s: Parents<Id>, x: Id, a: Id, b: Id, n: nat)
    requires Path(s, x, a, n) && Inside(s, x, b)
    ensures Inside(s, a, b) || Inside(s, b, a)
    decreases n
  {
    if n == 0 {
    } else if x == b {
      assert Inside(s, b, a);
    } else {
      InsideUp(s, x, b);
      Chained(s, s[x].value, a, b, n - 1);
    }
  }

  /** Two siblings have nothing in common. */
  lemma SiblingsAreApart(t: Tree, a: Id, b: Id, x: Id)
    requires Sound(t) && a in t.parent && b in t.parent && t.parent[a] == t.parent[b] && a != b
    requires Inside(t.parent, x, a)
    ensures !Inside(t.parent, x, b)
  {
    if Inside(t.parent, x, b) {
      var n: nat :| Path(t.parent, x, a, n);
      Chained(t.parent, x, a, b, n);
      var (c, d) := if Inside(t.parent, a, b) then (a, b) else (b, a);
      if t.parent[c].None? {
        InsideRoot(t.parent, c, d);
      } else {
        InsideUp(t.parent, c, d);
        ChildIsNotAbove(t.parent, t.parent[c].value, d);
      }
      assert false;
    }
  }

  lemma DistinctConcat<T>(a: seq<T>, b: seq<T>)
    requires Distinct(a) && Distinct(b) && forall x <- a :: x !in b
    ensures Distinct(a + b)
  {
    forall i, j | 0 <= i < j < |a + b| ensures (a + b)[i] != (a + b)[j] {
      if i < |a| <= j { assert a[i] in a && b[j - |a|] in b; }
    }
  }

  lemma DistinctThree<T>(h: T, inner: seq<T>, others: seq<T>)
    requires Distinct(inner) && Distinct(others) && h !in inner && forall x <- [h] + inner :: x !in others
    ensures Distinct([h] + inner + others)
  {
    DistinctConcat([h], inner);
    DistinctConcat([h] + inner, others);
  }

  lemma SiblingsTail(t: Tree, ks: seq<Id>, p: Option<Id>)
    requires Siblings(t, ks, p) && |ks| > 0
    ensures Siblings(t, ks[1..], p) && ks[0] in t.parent && t.parent[ks[0]] == p
  {
    assert ks[0] in ks && forall k <- ks[1..] :: k in ks;
  }

  lemma {:induction false} EmitsOnce(t: Tree, ks: seq<Id>, above: set<Id>, p: Option<Id>)
    requires Beneath(t, ks, above) && Siblings(t, ks, p)
    ensures Distinct(Emit(t, ks, above))
    decreases |t.parent.Keys - above|, |ks|
  {
    if |ks| != 0 {
      var h, rest := ks[0], ks[1..];
      EmitStep(t, ks, above);
      KidsAre(t, Some(h));
      SiblingsTail(t, ks, p);
      EmitsOnce(t, Kids(t, Some(h)), above + {h}, Some(h));
      EmitsOnce(t, rest, above, p);
      var inner, others := Emit(t, Kids(t, Some(h)), above + {h}), Emit(t, rest, above);
      NotInOwnKids(t, h, above);
      forall x | x in [h] + inner ensures x !in others { NotInSiblings(t, ks, above, x); }
      DistinctThree(h, inner, others);
    }
  }

  lemma NotInOwnKids(t: Tree, h: Id, above: set<Id>)
    requires Beneath(t, [h], above) && Beneath(t, Kids(t, Some(h)), above + {h})
    ensures h !in Emit(t, Kids(t, Some(h)), above + {h})
  {
    EmitsWhatIsInside(t, Kids(t, Some(h)), above + {h}, h);
    KidsAre(t, Some(h));
    assert h in [h];
    forall k | k in Kids(t, Some(h)) ensures !Inside(t.parent, h, k) { ChildIsNotAbove(t.parent, h, k); }
  }

  lemma NotInSiblings(t: Tree, ks: seq<Id>, above: set<Id>, x: Id)
    requires |ks| > 0 && Beneath(t, ks, above) && Beneath(t, ks[1..], above)
    requires Siblings(t, ks, if ks[0] in t.parent then t.parent[ks[0]] else None)
    requires Beneath(t, Kids(t, Some(ks[0])), above + {ks[0]})
    requires x in [ks[0]] + Emit(t, Kids(t, Some(ks[0])), above + {ks[0]})
    ensures x !in Emit(t, ks[1..], above)
  {
    var h := ks[0];
    assert h in ks;
    EmitsWhatIsInside(t, ks[1..], above, x);
    EmitsWhatIsInside(t, Kids(t, Some(h)), above + {h}, x);
    InsideSplits(t, x, h);
    forall k | k in ks[1..] ensures !Inside(t.parent, x, k) {
      var i :| 0 <= i < |ks[1..]| && ks[1..][i] == k;
      assert ks[i + 1] == k && k in ks;
      SiblingsAreApart(t, h, k, x);
    }
  }

  /** Each row of `out` is one of `ks` or comes after its parent. */
  ghost predicate ParentsFirst(t: Tree, out: seq<Id>, ks: seq<Id>) {
    forall i :: 0 <= i < |out| ==>
        out[i] in ks || (out[i] in t.parent && t.parent[out[i]].Some? && t.parent[out[i]].value in out[..i])
  }

  lemma {:induction false} EmitsParentsFirst(t: Tree, ks: seq<Id>, above: set<Id>)
    requires Beneath(t, ks, above)
    ensures ParentsFirst(t, Emit(t, ks, above), ks)
    decreases |t.parent.Keys - above|, |ks|
  {
    if |ks| != 0 {
      var h, rest := ks[0], ks[1..];
      EmitStep(t, ks, above);
      KidsAre(t, Some(h));
      EmitsParentsFirst(t, Kids(t, Some(h)), above + {h});
      EmitsParentsFirst(t, rest, above);
      JoinParentsFirst(t, h, Kids(t, Some(h)), Emit(t, Kids(t, Some(h)), above + {h}), rest, Emit(t, rest, above));
      assert ks == [h] + rest;
    }
  }

  lemma JoinParentsFirst(t: Tree, h: Id, kids: seq<Id>, inner: seq<Id>, rest: seq<Id>, others: seq<Id>)
    requires ParentsFirst(t, inner, kids) && ParentsFirst(t, others, rest)
    requires forall k <- kids :: k in t.parent && t.parent[k] == Some(h)
    ensures ParentsFirst(t, [h] + inner + others, [h] + rest)
  {
    var out := [h] + inner + others;
    forall i | 0 <= i < |out|
      ensures out[i] in [h] + rest ||
          (out[i] in t.parent && t.parent[out[i]].Some? && t.parent[out[i]].value in out[..i])
    {
      if 0 < i <= |inner| {
        assert out[i] == inner[i - 1] && out[..i] == [h] + inner[..i - 1];
      } else if i > |inner| {
        var j := i - 1 - |inner|;
        assert out[i] == others[j] && out[..i] == [h] + inner + others[..j];
      }
    }
  }

  lemma RootsAreBeneath(t: Tree)
    requires Sound(t)
    ensures Beneath(t, Kids(t, None), {})
  {
    KidsAre(t, None);
  }

  lemma {:induction false} UnderARoot(t: Tree, x: Id, n: nat)
    requires Sound(t) && Height(t.parent, x, n)
    ensures InsideAny(t, x, Kids(t, None))
    decreases n
  {
    KidsAre(t, None);
    if n == 0 {
      InsideSelf(t.parent, x);
      assert x in Kids(t, None);
    } else {
      UnderARoot(t, t.parent[x].value, n - 1);
      var k :| k in Kids(t, None) && Inside(t.parent, t.parent[x].value, k);
      InsideUp(t.parent, x, k);
    }
  }

  /** The walk lists every node once, each after its parent. */
  lemma WalkListsAllOnce(t: Tree)
    requires Sound(t)
    ensures Beneath(t, Kids(t, None), {})
    ensures var out := Emit(t, Kids(t, None), {});
      Distinct(out) && (forall id :: id in out <==> id in t.parent) && ParentsFirst(t, out, Kids(t, None))
  {
    RootsAreBeneath(t);
    KidsAre(t, None);
    var out := Emit(t, Kids(t, None), {});
    EmitsOnce(t, Kids(t, None), {}, None);
    EmitsParentsFirst(t, Kids(t, None), {});
    forall id ensures id in out <==> id in t.parent {
      EmitsWhatIsInside(t, Kids(t, None), {}, id);
      if id in t.parent {
        var n: nat :| Height(t.parent, id, n);
        UnderARoot(t, id, n);
      }
    }
  }

  // ---------------------------------------------------------------- the rows of a search

  /** What a search found, each in its order; `before` is the order of the product rows. */
  datatype Found = Found(sections: seq<string>, bins: seq<Bin>, hus: seq<Hu>, balances: seq<Balance>,
      before: (Id, Id) -> bool)

  /** Where a unit or a balance hangs: in its unit when that is shown, else in its bin. */
  function Container(f: Found, unit: Option<string>, bin: string): Id {
    if unit.Some? && unit.value in Names(f.hus) then HuId(unit.value) else BinId(bin)
  }

  function ProductOf(f: Found, b: Balance): Id { ProductId(Container(f, b.unit, b.bin), b.key) }

  /** One row for each container, product, batch and stock type. */
  function Products(f: Found, balances: seq<Balance>): seq<Id> {
    var n := |balances| - 1;
    if |balances| == 0 then []
    else
      var rows := Products(f, balances[..n]);
      if ProductOf(f, balances[n]) in rows then rows else rows + [ProductOf(f, balances[n])]
  }

  function SectionIds(f: Found): seq<Id> {
    seq(|f.sections|, i requires 0 <= i < |f.sections| => SectionId(f.sections[i]))
  }

  function BinIds(f: Found): seq<Id> { seq(|f.bins|, i requires 0 <= i < |f.bins| => BinId(f.bins[i].name)) }

  function HuIds(f: Found): seq<Id> { seq(|f.hus|, i requires 0 <= i < |f.hus| => HuId(f.hus[i].name)) }

  function ProductIds(f: Found): seq<Id> { SortBy(Products(f, f.balances), f.before) }

  function FindBin(bins: seq<Bin>, name: string): Option<Bin>
    decreases |bins|
  {
    if |bins| == 0 then None else if bins[0].name == name then Some(bins[0]) else FindBin(bins[1..], name)
  }

  function FindHu(hus: seq<Hu>, name: string): Option<Hu>
    decreases |hus|
  {
    if |hus| == 0 then None else if hus[0].name == name then Some(hus[0]) else FindHu(hus[1..], name)
  }

  /** The row an id hangs under. */
  function ParentOf(f: Found, id: Id): Option<Id> {
    match id
    case SectionId(_) => None
    case BinId(name) => (match FindBin(f.bins, name) case None => None case Some(b) => Some(SectionId(b.section)))
    case HuId(name) => (match FindHu(f.hus, name) case None => None case Some(h) => Some(Container(f, h.parent, h.bin)))
    case ProductId(container, _) => Some(container)
  }

  function Order(f: Found): seq<Id> { SectionIds(f) + BinIds(f) + HuIds(f) + ProductIds(f) }

  function TreeOf(f: Found): Tree { Tree(Order(f), map id | id in Order(f) :: ParentOf(f, id)) }

  function BinNames(f: Found): set<string> { set b | b in f.bins :: b.name }

  /** What the queries guarantee, for units that are a forest. */
  ghost predicate Consistent(f: Found, units: HandlingUnits.Units) {
    && Distinct(f.sections)
    && (forall i, j :: 0 <= i < j < |f.bins| ==> f.bins[i].name != f.bins[j].name)
    && (forall i, j :: 0 <= i < j < |f.hus| ==> f.hus[i].name != f.hus[j].name)
    && (forall b <- f.bins :: b.section in f.sections)
    && (forall h <- f.hus :: h.bin in BinNames(f) && h.name in units && units[h.name].parent == h.parent)
    && (forall b <- f.balances :: b.bin in BinNames(f))
    && Acyclic(HandlingUnits.Nesting(units))
  }

  lemma {:induction false} ProductsAre(f: Found, balances: seq<Balance>)
    ensures Distinct(Products(f, balances))
    ensures forall id :: id in Products(f, balances) <==> exists b <- balances :: ProductOf(f, b) == id
  {
    if |balances| != 0 {
      var n := |balances| - 1;
      ProductsAre(f, balances[..n]);
      assert balances == balances[..n] + [balances[n]];
      assert forall b :: b in balances <==> b in balances[..n] || b == balances[n];
    }
  }

  lemma ProductIdsAre(f: Found)
    ensures Distinct(ProductIds(f))
    ensures forall id :: id in ProductIds(f) <==> exists b <- f.balances :: ProductOf(f, b) == id
  {
    var ps := Products(f, f.balances);
    ProductsAre(f, f.balances);
    SortPermutes(ps, f.before);
    SameElements(ps, ProductIds(f));
  }

  lemma SameElements(a: seq<Id>, b: seq<Id>)
    requires multiset(a) == multiset(b)
    ensures forall id :: id in a <==> id in b
    ensures Distinct(a) ==> Distinct(b)
  {
    forall id ensures id in a <==> id in b { assert multiset(a)[id] == multiset(b)[id]; }
    if Distinct(a) {
      forall i, j | 0 <= i < j < |b| ensures b[i] != b[j] {
        OnceEach(a, b[i]);
        if b[i] == b[j] { TwiceThere(b, i, j); }
      }
    }
  }

  lemma {:induction false} OnceEach(a: seq<Id>, id: Id)
    requires Distinct(a)
    ensures multiset(a)[id] <= 1
  {
    if |a| != 0 {
      var n := |a| - 1;
      OnceEach(a[..n], id);
      assert a == a[..n] + [a[n]];
      if a[n] == id { assert id !in a[..n]; }
    }
  }

  lemma TwiceThere(b: seq<Id>, i: nat, j: nat)
    requires i < j < |b| && b[i] == b[j]
    ensures multiset(b)[b[i]] >= 2
  {
    assert b == b[..j] + b[j..];
    assert b[i] in b[..j] && b[j] in b[j..];
  }

  lemma {:induction false} FindsBin(bins: seq<Bin>, name: string)
    ensures match FindBin(bins, name) case Some(b) => b in bins && b.name == name
        case None => forall b <- bins :: b.name != name
    decreases |bins|
  {
    if |bins| != 0 {
      FindsBin(bins[1..], name);
      assert bins == [bins[0]] + bins[1..];
    }
  }

  lemma {:induction false} FindsHu(hus: seq<Hu>, name: string)
    ensures match FindHu(hus, name) case Some(h) => h in hus && h.name == name
        case None => forall h <- hus :: h.name != name
    decreases |hus|
  {
    if |hus| != 0 {
      FindsHu(hus[1..], name);
      assert hus == [hus[0]] + hus[1..];
    }
  }

  /** What has a row. */
  ghost predicate Shows(f: Found, id: Id) {
    match id
    case SectionId(name) => name in f.sections
    case BinId(name) => name in BinNames(f)
    case HuId(name) => name in Names(f.hus)
    case ProductId(_, _) => exists b <- f.balances :: ProductOf(f, b) == id
  }

  lemma SectionsShown(f: Found, id: Id)
    ensures id in SectionIds(f) <==> id.SectionId? && id.name in f.sections
    ensures id in BinIds(f) <==> id.BinId? && id.name in BinNames(f)
    ensures id in HuIds(f) <==> id.HuId? && id.name in Names(f.hus)
  {
    if id.SectionId? && id.name in f.sections {
      var i :| 0 <= i < |f.sections| && f.sections[i] == id.name;
      assert SectionIds(f)[i] == id;
    }
    if id.BinId? && id.name in BinNames(f) {
      var i :| 0 <= i < |f.bins| && f.bins[i].name == id.name;
      assert BinIds(f)[i] == id;
    }
    if id.HuId? && id.name in Names(f.hus) {
      var i :| 0 <= i < |f.hus| && f.hus[i].name == id.name;
      assert HuIds(f)[i] == id;
    }
  }

  lemma OrderIs(f: Found, units: HandlingUnits.Units)
    requires Consistent(f, units)
    ensures Distinct(Order(f))
    ensures forall id :: id in Order(f) <==> Shows(f, id)
  {
    ProductIdsAre(f);
    forall id ensures id in SectionIds(f) <==> id.SectionId? && Shows(f, id)
      ensures id in BinIds(f) <==> id.BinId? && Shows(f, id)
      ensures id in HuIds(f) <==> id.HuId? && Shows(f, id)
    {
      SectionsShown(f, id);
    }
    DistinctConcat(SectionIds(f), BinIds(f));
    DistinctConcat(SectionIds(f) + BinIds(f), HuIds(f));
    DistinctConcat(SectionIds(f) + BinIds(f) + HuIds(f), ProductIds(f));
  }

  lemma ParentIsShown(f: Found, units: HandlingUnits.Units, id: Id)
    requires Consistent(f, units) && Shows(f, id)
    ensures ParentOf(f, id).None? <==> id.SectionId?
    ensures ParentOf(f, id).Some? ==> Shows(f, ParentOf(f, id).value)
  {
    match id
    case SectionId(_) =>
    case BinId(name) => FindsBin(f.bins, name);
    case HuId(name) => FindsHu(f.hus, name);
    case ProductId(container, _) =>
  }

  lemma TreeHas(f: Found, units: HandlingUnits.Units, id: Id)
    requires Consistent(f, units)
    ensures id in TreeOf(f).parent <==> Shows(f, id)
    ensures Shows(f, id) ==> TreeOf(f).parent[id] == ParentOf(f, id)
  {
    OrderIs(f, units);
  }

  lemma OneMoreUp(f: Found, units: HandlingUnits.Units, id: Id)
    requires Consistent(f, units) && Shows(f, id)
    requires (ParentOf(f, id).Some? ==> Rooted(TreeOf(f).parent, ParentOf(f, id).value))
    ensures Rooted(TreeOf(f).parent, id)
  {
    var s := TreeOf(f).parent;
    TreeHas(f, units, id);
    if ParentOf(f, id).Some? {
      var n: nat :| Height(s, ParentOf(f, id).value, n);
      assert Height(s, id, n + 1);
    } else {
      assert Height(s, id, 0);
    }
  }

  lemma BinIsRooted(f: Found, units: HandlingUnits.Units, name: string)
    requires Consistent(f, units) && name in BinNames(f)
    ensures Rooted(TreeOf(f).parent, BinId(name))
  {
    ParentIsShown(f, units, BinId(name));
    OneMoreUp(f, units, ParentOf(f, BinId(name)).value);
    OneMoreUp(f, units, BinId(name));
  }

  lemma {:induction false} HuIsRooted(f: Found, units: HandlingUnits.Units, name: string, n: nat)
    requires Consistent(f, units) && name in Names(f.hus) && Height(HandlingUnits.Nesting(units), name, n)
    ensures Rooted(TreeOf(f).parent, HuId(name))
    decreases n
  {
    FindsHu(f.hus, name);
    var h := FindHu(f.hus, name).value;
    if h.parent.Some? && h.parent.value in Names(f.hus) {
      HuIsRooted(f, units, h.parent.value, n - 1);
    } else {
      BinIsRooted(f, units, h.bin);
    }
    OneMoreUp(f, units, HuId(name));
  }

  lemma ShownHuIsRooted(f: Found, units: HandlingUnits.Units, name: string)
    requires Consistent(f, units) && name in Names(f.hus)
    ensures Rooted(TreeOf(f).parent, HuId(name))
  {
    assert Rooted(HandlingUnits.Nesting(units), name);
    var n: nat :| Height(HandlingUnits.Nesting(units), name, n);
    HuIsRooted(f, units, name, n);
  }

  lemma IdIsRooted(f: Found, units: HandlingUnits.Units, id: Id)
    requires Consistent(f, units) && Shows(f, id)
    ensures Rooted(TreeOf(f).parent, id)
  {
    match id
    case SectionId(_) => OneMoreUp(f, units, id);
    case BinId(name) => BinIsRooted(f, units, name);
    case HuId(name) => ShownHuIsRooted(f, units, name);
    case ProductId(container, _) =>
      var b :| b in f.balances && ProductOf(f, b) == id;
      if container.HuId? { ShownHuIsRooted(f, units, container.name); } else { BinIsRooted(f, units, b.bin); }
      OneMoreUp(f, units, id);
  }

  lemma TreeIsSound(f: Found, units: HandlingUnits.Units)
    requires Consistent(f, units)
    ensures Sound(TreeOf(f))
  {
    var t := TreeOf(f);
    OrderIs(f, units);
    forall id | id in t.parent ensures Rooted(t.parent, id) && (t.parent[id].Some? ==> t.parent[id].value in t.parent) {
      TreeHas(f, units, id);
      ParentIsShown(f, units, id);
      IdIsRooted(f, units, id);
      if t.parent[id].Some? { TreeHas(f, units, t.parent[id].value); }
    }
  }

  ghost function Rows(f: Found): seq<Id> { Emit(TreeOf(f), Kids(TreeOf(f), None), {}) }

  /** The rows: sections, bins, units and product groups that were found, each once and after the row it hangs under. */
  lemma RowsShowAllOnce(f: Found, units: HandlingUnits.Units)
    requires Consistent(f, units)
    ensures Distinct(Rows(f)) && forall id :: id in Rows(f) <==> Shows(f, id)
    ensures forall i ::
        0 <= i < |Rows(f)| && ParentOf(f, Rows(f)[i]).Some? ==> ParentOf(f, Rows(f)[i]).value in Rows(f)[..i]
  {
    var t, out := TreeOf(f), Rows(f);
    TreeIsSound(f, units);
    WalkListsAllOnce(t);
    forall id ensures id in out <==> Shows(f, id) { TreeHas(f, units, id); }
    forall i | 0 <= i < |out| && ParentOf(f, out[i]).Some? ensures ParentOf(f, out[i]).value in out[..i] {
      assert out[i] in out;
      TreeHas(f, units, out[i]);
      KidsAre(t, None);
      assert out[i] !in Kids(t, None);
    }
  }
}
