/** The handling-unit services, working on the documents in place. */
module HandlingUnitService {
  import opened Basics
  import opened Hierarchy
  import opened HandlingUnits
  import opened HandlingUnitProofs

  class Yard {
    var units: Units

    constructor ()
      ensures units == map[]
    {
      units := map[];
    }

    /** The ancestor walk of the validation, then the labels. */
    method SaveUnit(h: Name, unit: Unit) returns (ok: bool)
      modifies this
      ensures ok == Save(old(units), h, unit).Some? && units == Save(old(units), h, unit).GetOr(old(units))
    {
      if unit.parent.None? {
        units := units[h := unit.(top := h, level := 0)];
        return true;
      }
      var p := unit.parent.value;
      if p == h || p !in units { return false; }
      if units[p].warehouse != unit.warehouse || units[p].bin != unit.bin { return false; }
      var ancestor, visited := p, {h};
      while true
        invariant units == old(units) && Walk(units, visited, ancestor) == Walk(units, {h}, p)
        decreases |units.Keys - visited|
      {
        if ancestor in visited || ancestor !in units { return false; }
        if units[ancestor].parent.None? { break; }
        Smaller(units.Keys - (visited + {ancestor}), units.Keys - visited);
        visited, ancestor := visited + {ancestor}, units[ancestor].parent.value;
      }
      units := units[h := unit.(top := ancestor, level := units[p].level + 1)];
      ok := true;
    }

    /** The unit and, when it has moved, everything inside it. */
    method SaveAndMove(h: Name, unit: Unit) returns (ok: bool)
      requires Forest(units) && h in units && unit.warehouse == units[h].warehouse
      modifies this
      ensures ok == Arrive(old(units), h, unit).Some? && units == Arrive(old(units), h, unit).GetOr(old(units))
    {
      var moved := units[h].bin != unit.bin;
      ok := SaveUnit(h, unit);
      if ok && moved {
        SavedIsAcyclic(old(units), h, unit);
        InsideSelf(Nesting(units), h);
        CascadeCurrentBin(h, unit.bin, {h});
      }
    }

    method CreateHandlingUnit(h: Name, bin: string, warehouse: string) returns (ok: bool)
      modifies this
      ensures ok == Create(old(units), h, bin, warehouse).Some?
      ensures units == Create(old(units), h, bin, warehouse).GetOr(old(units))
    {
      if h in units { return false; }
      ok := SaveUnit(h, Unit(None, bin, warehouse, h, 0));
    }

    method NestHandlingUnit(h: Name, p: Name) returns (ok: bool)
      requires Forest(units)
      modifies this
      ensures ok == Nest(old(units), h, p).Some? && units == Nest(old(units), h, p).GetOr(old(units)) && Forest(units)
    {
      if h == p || h !in units || p !in units { return false; }
      if units[h].parent.Some? || units[p].warehouse != units[h].warehouse { return false; }
      ok := SaveAndMove(h, units[h].(parent := Some(p), bin := units[p].bin));
      if ok { NestPlaces(old(units), h, p); }
    }

    method UnnestHandlingUnit(h: Name) returns (ok: bool)
      requires Forest(units)
      modifies this
      ensures ok == Unnest(old(units), h).Some? && units == Unnest(old(units), h).GetOr(old(units)) && Forest(units)
    {
      if h !in units || units[h].parent.None? { return false; }
      ok := SaveUnit(h, units[h].(parent := None));
      UnnestPlaces(old(units), h);
    }

    method RelocateHandlingUnit(h: Name, bin: string, fits: bool) returns (ok: bool)
      requires Forest(units)
      modifies this
      ensures ok == Relocate(old(units), h, bin, fits).Some?
      ensures units == Relocate(old(units), h, bin, fits).GetOr(old(units)) && Forest(units)
    {
      if h !in units || (units[h].bin == bin && units[h].parent.None?) || !fits { return false; }
      ok := SaveAndMove(h, units[h].(parent := None, bin := bin));
      if ok { RelocateMovesExactly(old(units), h, bin, fits); }
    }

    method PackHu(h: Name, dest: Name, station: string, open: bool) returns (ok: bool)
      requires Forest(units)
      modifies this
      ensures ok == Pack(old(units), h, dest, station, open).Some?
      ensures units == Pack(old(units), h, dest, station, open).GetOr(old(units)) && Forest(units)
    {
      if !open || h == dest || h !in units || dest !in units || units[h].bin != station || units[dest].bin != station {
        return false;
      }
      ok := PutInto(h, dest);
    }

    /** What packing and a drop on a unit have in common; a failed nesting undoes the unnesting. */
    method PutInto(h: Name, dest: Name) returns (ok: bool)
      requires Forest(units) && h in units && dest in units
      modifies this
      ensures ok <==> !Inside(Nesting(old(units)), dest, h) && Rehome(old(units), h, dest).Some?
      ensures units == if ok then Rehome(old(units), h, dest).value else old(units)
      ensures Forest(units)
    {
      var contents := HuSubtree(h);
      if dest in contents { return false; }
      var before := units;
      ok := true;
      if units[h].parent.Some? { ok := UnnestHandlingUnit(h); }
      if ok { ok := NestHandlingUnit(h, dest); }
      if !ok { units := before; }
    }

    method MoveHu(h: Name, dest: Option<Name>, bin: string, fits: bool) returns (ok: bool)
      requires Forest(units)
      modifies this
      ensures ok == Drop(old(units), h, dest, bin, fits).Some?
      ensures units == Drop(old(units), h, dest, bin, fits).GetOr(old(units)) && Forest(units)
    {
      if dest.None? {
        ok := RelocateHandlingUnit(h, bin, fits);
        return;
      }
      if h !in units || dest.value !in units || units[h].parent == dest { return false; }
      ok := PutInto(h, dest.value);
    }

    method RecycleHandlingUnit(h: Name, idle: bool) returns (ok: bool)
      requires Forest(units)
      modifies this
      ensures ok == Recycle(old(units), h, idle).Some? && units == Recycle(old(units), h, idle).GetOr(old(units))
      ensures Forest(units)
    {
      if h !in units || !idle || units[h].parent.Some? || HasChildren(units, h) { return false; }
      RecycleKeepsForest(units, h, idle);
      units := units - {h};
      ok := true;
    }

    method DeleteEmptyHu(h: Name, station: string, empty: bool) returns (ok: bool)
      requires Forest(units)
      modifies this
      ensures ok == DeleteEmpty(old(units), h, station, empty).Some?
      ensures units == DeleteEmpty(old(units), h, station, empty).GetOr(old(units)) && Forest(units)
    {
      if h !in units || units[h].bin != station || !empty || HasChildren(units, h) { return false; }
      ok := true;
      if units[h].parent.Some? { ok := UnnestHandlingUnit(h); }
      units := units[h := units[h].(bin := "")];
      DeleteKeepsForest(old(units), h, station, empty);
    }

    /** The unit and everything inside it, each once. It needs no forest to come to an end. */
    method HuSubtree(h: Name) returns (out: seq<Name>)
      requires h in units
      ensures forall n :: n in out <==> Inside(Nesting(units), n, h)
      ensures Distinct(out)
    {
      var stack := [h];
      out := [];
      InsideSelf(Nesting(units), h);
      while |stack| > 0
        invariant Collected(units, h, out, stack) && Distinct(out)
        decreases |units.Keys - Elements(out)|, |stack|
      {
        var name, rest := stack[|stack| - 1], stack[..|stack| - 1];
        Popped(stack);
        if name in out {
          SeenAgain(units, h, out, stack);
          stack := rest;
        } else {
          var children := ListChildren(name);
          FewerLeft(units, h, out, name);
          OneMore(units, h, out, stack, children);
          out, stack := out + [name], rest + children;
        }
      }
      Complete(units, h, out);
    }

    method ListChildren(h: Name) returns (children: seq<Name>)
      ensures AreChildren(units, children, h)
    {
      var left := units.Keys;
      children := [];
      while left != {}
        invariant left <= units.Keys
        invariant forall c :: c in children <==> c in units && c !in left && units[c].parent == Some(h)
        decreases |left|
      {
        var c :| c in left;
        if units[c].parent == Some(h) { children := children + [c]; }
        left := left - {c};
      }
    }

    /** The outermost unit around `h`; in data with a circle the walk ends where it has come round. */
    method TopHu(h: Name) returns (top: Name)
      ensures h in units && ParentsExist(units) ==> top in units && Inside(Nesting(units), h, top)
      ensures h in units && Forest(units) ==> top in units && units[top].parent.None?
    {
      var seen: set<Name> := {};
      top := h;
      if h in units { InsideSelf(Nesting(units), h); }
      while top in units && units[top].parent.Some? && units[top].parent.value !in seen
        invariant seen <= units.Keys
        invariant top in seen ==> top in units && units[top].parent.Some? && units[top].parent.value in seen
        invariant h in units && ParentsExist(units) ==> Climbed(units, h, top, seen)
        decreases |units.Keys - seen|
      {
        if h in units && ParentsExist(units) { ClimbOn(units, h, top, seen); }
        FewerBelow(units.Keys, seen, top);
        seen, top := seen + {top}, units[top].parent.value;
      }
      if h in units && Forest(units) {
        AllParentsExist(units);
        if top in units && units[top].parent.Some? { NoWayRound(units, h, top, seen); }
      }
    }

    /** `above`: the units around `h`, and `h`. */
    method CascadeCurrentBin(h: Name, bin: string, ghost above: set<Name>)
      requires h in units && Acyclic(Nesting(units)) && above <= units.Keys && h in above
      requires forall a <- above :: Inside(Nesting(units), h, a)
      modifies this
      ensures IsMovedBelow(old(units), units, h, bin)
      decreases |units.Keys - above|
    {
      var children := set c | c in units.Keys && units[c].parent == Some(h);
      ghost var s, done := units, {};
      while children != {}
        invariant done !! children && done + children == ChildrenOf(s, h)
        invariant Moved(s, units, done, bin)
        decreases |children|
      {
        var c :| c in children;
        ghost var before := units;
        Deeper(s, units, h, c, done, children, above, bin);
        units := SetBin(units, c, bin);
        ghost var here := units;
        CascadeCurrentBin(c, bin, above + {c});
        Cascaded(s, before, here, units, c, done, bin);
        MovesOver(done, children, c);
        done, children := done + {c}, children - {c};
      }
      AllMoved(s, units, h, bin);
    }
  }

  lemma MovesOver(done: set<Name>, children: set<Name>, c: Name)
    requires c in children && done !! children
    ensures done + {c} !! children - {c} && (done + {c}) + (children - {c}) == done + children
    ensures |children - {c}| < |children|
  {
  }

  function SetBin(s: Units, h: Name, bin: string): Units
    requires h in s
  {
    s[h := s[h].(bin := bin)]
  }

  ghost function ChildrenOf(s: Units, h: Name): set<Name> { set c | c in s.Keys && s[c].parent == Some(h) }

  /** Whatever is inside one of `done` has been moved to the bin, and nothing else has changed. */
  ghost predicate Moved(s: Units, t: Units, done: set<Name>, bin: string) {
    && SameParents(s, t)
    && forall n <- s.Keys :: t[n] == if exists c <- done :: Inside(Nesting(s), n, c) then s[n].(bin := bin) else s[n]
  }

  /** The cascade may go on below the next child. */
  lemma Deeper(s: Units, t: Units, h: Name, c: Name, done: set<Name>, children: set<Name>, above: set<Name>,
        bin: string)
    requires Acyclic(Nesting(s)) && h in above && above <= s.Keys && Moved(s, t, done, bin)
    requires c in children && done + children == ChildrenOf(s, h)
    requires forall a <- above :: Inside(Nesting(s), h, a)
    ensures c in s && c in t && var here := SetBin(t, c, bin);
      && Acyclic(Nesting(here)) && above + {c} <= here.Keys && |here.Keys - (above + {c})| < |s.Keys - above|
      && forall a <- above + {c} :: Inside(Nesting(here), c, a)
  {
    assert c in done + children;
    var here := SetBin(t, c, bin);
    assert SameParents(s, here);
    SameNesting(s, here);
    ChildIsNotAbove(Nesting(s), h, c);
    Smaller(s.Keys - (above + {c}), s.Keys - above);
    forall a | a in above + {c} ensures Inside(Nesting(here), c, a) {
      InsideUp(Nesting(s), c, a);
    }
  }

  lemma Cascaded(s: Units, before: Units, here: Units, after: Units, c: Name, done: set<Name>, bin: string)
    requires c in s && Moved(s, before, done, bin) && c in before && here == SetBin(before, c, bin)
    requires IsMovedBelow(here, after, c, bin)
    ensures Moved(s, after, done + {c}, bin)
  {
    assert SameParents(s, here);
    SameNesting(s, here);
    forall n | n in s.Keys
      ensures after[n] == if exists d <- done + {c} :: Inside(Nesting(s), n, d) then s[n].(bin := bin) else s[n]
    {
      if n == c { InsideSelf(Nesting(s), c); }
      assert (exists d <- done + {c} :: Inside(Nesting(s), n, d)) <==>
          Inside(Nesting(s), n, c) || exists d <- done :: Inside(Nesting(s), n, d);
    }
  }

  lemma AllMoved(s: Units, t: Units, h: Name, bin: string)
    requires h in s && Acyclic(Nesting(s)) && Moved(s, t, ChildrenOf(s, h), bin)
    ensures IsMovedBelow(s, t, h, bin)
  {
    AllBelow(s, h, ChildrenOf(s, h));
  }

  /** What is inside a unit is inside one of its children. */
  lemma AllBelow(s: Units, h: Name, children: set<Name>)
    requires h in s && Acyclic(Nesting(s)) && children == set c | c in s.Keys && s[c].parent == Some(h)
    ensures forall n <- s.Keys ::
        (exists c <- children :: Inside(Nesting(s), n, c)) <==> n != h && Inside(Nesting(s), n, h)
  {
    forall n | n in s.Keys
      ensures (exists c <- children :: Inside(Nesting(s), n, c)) <==> n != h && Inside(Nesting(s), n, h)
    {
      if c :| c in children && Inside(Nesting(s), n, c) {
        InsideUp(Nesting(s), c, h);
        InsideSelf(Nesting(s), h);
        InsideTrans(Nesting(s), n, c, h);
        if n == h {
          NoCycle(Nesting(s), h, c);
          NoSelfParent(Nesting(s), h);
        }
      }
      if n != h && Inside(Nesting(s), n, h) {
        var k: nat :| Path(Nesting(s), n, h, k);
        var c := ChildOnPath(Nesting(s), n, h, k);
        assert c in children;
      }
    }
  }

  lemma SavedIsAcyclic(s: Units, h: Name, unit: Unit)
    requires Forest(s) && h in s && Save(s, h, unit).Some?
    ensures Acyclic(Nesting(Save(s, h, unit).value))
  {
    if unit.parent.Some? { SaveSucceedsExactly(s, h, unit); }
    NewParentIsAcyclic(s, Save(s, h, unit).value, h);
  }

  // ---------------------------------------------------------------- walking up

  ghost predicate ParentsExist(s: Units) { forall u <- s.Keys :: s[u].parent.Some? ==> s[u].parent.value in s }

  lemma AllParentsExist(s: Units)
    requires Forest(s)
    ensures ParentsExist(s)
  {
    forall u | u in s.Keys && s[u].parent.Some? ensures s[u].parent.value in s { assert Together(s, u); }
  }

  /** The walk from `h` has come to `top`, past `seen`. */
  ghost predicate Climbed(s: Units, h: Name, top: Name, seen: set<Name>) {
    top in s && Inside(Nesting(s), h, top) && forall a <- seen :: Inside(Nesting(s), a, top)
  }

  lemma ClimbOn(s: Units, h: Name, top: Name, seen: set<Name>)
    requires ParentsExist(s) && Climbed(s, h, top, seen) && s[top].parent.Some?
    ensures Climbed(s, h, s[top].parent.value, seen + {top})
  {
    var p := s[top].parent.value;
    InsideSelf(Nesting(s), p);
    InsideUp(Nesting(s), top, p);
    forall a | a in seen + {h} ensures Inside(Nesting(s), a, p) { InsideTrans(Nesting(s), a, top, p); }
  }

  lemma NoWayRound(s: Units, h: Name, top: Name, seen: set<Name>)
    requires Acyclic(Nesting(s)) && ParentsExist(s) && Climbed(s, h, top, seen) && s[top].parent.Some?
    ensures s[top].parent.value !in seen
  {
    var p := s[top].parent.value;
    if p in seen {
      ChildIsNotAbove(Nesting(s), p, top);
      assert false;
    }
  }

  // ---------------------------------------------------------------- the work stack

  function Elements(out: seq<Name>): set<Name> { set n | n in out }

  /** All found so far is inside `h`, and nothing inside what was taken has been missed. */
  ghost predicate Collected(s: Units, h: Name, out: seq<Name>, stack: seq<Name>) {
    && (h in out || h in stack)
    && (forall n <- out :: Inside(Nesting(s), n, h))
    && (forall n <- stack :: Inside(Nesting(s), n, h))
    && (forall c <- s.Keys :: s[c].parent.Some? && s[c].parent.value in out ==> c in out || c in stack)
  }

  predicate Distinct(out: seq<Name>) { forall i, j :: 0 <= i < j < |out| ==> out[i] != out[j] }

  lemma Popped(stack: seq<Name>)
    requires |stack| > 0
    ensures forall n :: n in stack <==> n in stack[..|stack| - 1] || n == stack[|stack| - 1]
  {
    assert stack == stack[..|stack| - 1] + [stack[|stack| - 1]];
  }

  lemma SeenAgain(s: Units, h: Name, out: seq<Name>, stack: seq<Name>)
    requires |stack| > 0 && Collected(s, h, out, stack) && stack[|stack| - 1] in out
    ensures Collected(s, h, out, stack[..|stack| - 1])
  {
    Popped(stack);
  }

  lemma FewerLeft(s: Units, h: Name, out: seq<Name>, name: Name)
    requires Inside(Nesting(s), name, h) && name !in out
    ensures |s.Keys - Elements(out + [name])| < |s.Keys - Elements(out)|
  {
    assert Elements(out + [name]) == Elements(out) + {name};
    Smaller(s.Keys - Elements(out + [name]), s.Keys - Elements(out));
  }

  ghost predicate AreChildren(s: Units, children: seq<Name>, name: Name) {
    forall c :: c in children <==> c in s && s[c].parent == Some(name)
  }

  lemma ChildrenInside(s: Units, h: Name, name: Name, children: seq<Name>)
    requires Inside(Nesting(s), name, h) && AreChildren(s, children, name)
    ensures forall n <- children :: Inside(Nesting(s), n, h)
  {
    forall n | n in children ensures Inside(Nesting(s), n, h) { InsideUp(Nesting(s), n, h); }
  }

  lemma OneMore(s: Units, h: Name, out: seq<Name>, stack: seq<Name>, children: seq<Name>)
    requires |stack| > 0 && Collected(s, h, out, stack) && AreChildren(s, children, stack[|stack| - 1])
    ensures Collected(s, h, out + [stack[|stack| - 1]], stack[..|stack| - 1] + children)
  {
    var name, rest := stack[|stack| - 1], stack[..|stack| - 1];
    Popped(stack);
    ChildrenInside(s, h, name, children);
    assert forall n :: n in rest + children <==> n in rest || n in children;
    assert forall n :: n in out + [name] <==> n in out || n == name;
  }

  lemma {:induction false} ReachedByClosure(s: Units, h: Name, out: seq<Name>, n: Name, k: nat)
    requires Collected(s, h, out, []) && Path(Nesting(s), n, h, k)
    ensures n in out
    decreases k
  {
    if k != 0 { ReachedByClosure(s, h, out, s[n].parent.value, k - 1); }
  }

  lemma Complete(s: Units, h: Name, out: seq<Name>)
    requires Collected(s, h, out, [])
    ensures forall n :: n in out <==> Inside(Nesting(s), n, h)
  {
    forall n | Inside(Nesting(s), n, h) ensures n in out {
      var k: nat :| Path(Nesting(s), n, h, k);
      ReachedByClosure(s, h, out, n, k);
    }
  }
}
