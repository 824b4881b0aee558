/** Handling units stay a forest, and moving one moves exactly what is in it. */
module HandlingUnitProofs {
  import opened Basics
  import opened Hierarchy
  import opened HandlingUnits

  // ---------------------------------------------------------------- the validating walk

  /** The walk up fails exactly when it would come to `h`; otherwise it ends on top. */
  lemma {:induction false} WalkFinds(s: Units, visited: set<Name>, cur: Name, h: Name, m: nat)
    requires Acyclic(Nesting(s)) && (forall x <- s.Keys :: Together(s, x)) && Height(Nesting(s), cur, m) && h in visited
    requires forall b <- visited :: b != h ==> b != cur && Inside(Nesting(s), b, cur)
    ensures Walk(s, visited, cur).None? <==> Inside(Nesting(s), cur, h)
    ensures Walk(s, visited, cur).Some? ==>
        var top := Walk(s, visited, cur).value; Path(Nesting(s), cur, top, m) && top in s && s[top].parent.None?
    decreases m
  {
    if cur == h {
      InsideSelf(Nesting(s), h);
    } else if m == 0 {
      InsideRoot(Nesting(s), cur, h);
      InsideSelf(Nesting(s), cur);
    } else {
      var q := s[cur].parent.value;
      InsideUp(Nesting(s), cur, h);
      InsideSelf(Nesting(s), q);
      InsideUp(Nesting(s), cur, q);
      forall b | b in visited + {cur} && b != h ensures b != q && Inside(Nesting(s), b, q) {
        if b != cur { InsideTrans(Nesting(s), b, cur, q); }
        if b == q {
          NoCycle(Nesting(s), cur, q);
          NoSelfParent(Nesting(s), cur);
          assert false;
        }
      }
      WalkFinds(s, visited + {cur}, q, h, m - 1);
    }
  }

  lemma SaveSucceedsExactly(s: Units, h: Name, unit: Unit)
    requires Forest(s) && unit.parent.Some?
    ensures var p := unit.parent.value;
      Save(s, h, unit).Some? <==>
        p != h && p in s && s[p].warehouse == unit.warehouse && s[p].bin == unit.bin && !Inside(Nesting(s), p, h)
  {
    var p := unit.parent.value;
    if p in s && p != h {
      assert Rooted(Nesting(s), p);
      var m: nat :| Height(Nesting(s), p, m);
      WalkFinds(s, {h}, p, h, m);
    }
    if p == h && p in s { assert Path(Nesting(s), p, h, 0); }
  }

  // ---------------------------------------------------------------- a new parent

  ghost predicate SameElsewhere(s: Units, t: Units, h: Name) {
    h in t && (forall x <- s.Keys :: x != h ==> x in t && t[x].parent == s[x].parent) && forall x <- t.Keys ::
        x != h ==> x in s
  }

  lemma {:induction false} HeightApart(s: Units, t: Units, h: Name, x: Name, m: nat)
    requires SameElsewhere(s, t, h) && Height(Nesting(s), x, m) && !Inside(Nesting(s), x, h)
    ensures Height(Nesting(t), x, m)
    decreases m
  {
    if x == h { assert Path(Nesting(s), x, h, 0); }
    if m != 0 {
      InsideUp(Nesting(s), x, h);
      HeightApart(s, t, h, s[x].parent.value, m - 1);
    }
  }

  lemma {:induction false} RootedAfter(s: Units, t: Units, h: Name, x: Name, m: nat)
    requires SameElsewhere(s, t, h) && Height(Nesting(s), x, m) && Rooted(Nesting(t), h)
    ensures Rooted(Nesting(t), x)
    decreases m
  {
    if x != h {
      if m == 0 {
        assert Height(Nesting(t), x, 0);
      } else {
        RootedAfter(s, t, h, s[x].parent.value, m - 1);
        var k: nat :| Height(Nesting(t), s[x].parent.value, k);
        assert Height(Nesting(t), x, k + 1);
      }
    }
  }

  /** A unit may get any parent that is not inside it. */
  lemma NewParentIsAcyclic(s: Units, t: Units, h: Name)
    requires Acyclic(Nesting(s)) && SameElsewhere(s, t, h)
    requires t[h].parent.Some? ==> t[h].parent.value in s && !Inside(Nesting(s), t[h].parent.value, h)
    ensures Acyclic(Nesting(t))
  {
    if t[h].parent.Some? {
      var p := t[h].parent.value;
      var m: nat :| Height(Nesting(s), p, m);
      HeightApart(s, t, h, p, m);
      assert Height(Nesting(t), h, m + 1);
    } else {
      assert Height(Nesting(t), h, 0);
    }
    forall x | x in t ensures Rooted(Nesting(t), x) {
      if x != h {
        var m: nat :| Height(Nesting(s), x, m);
        RootedAfter(s, t, h, x, m);
      }
    }
  }

  lemma {:induction false} SameInsides(s: Units, t: Units, h: Name, x: Name, m: nat)
    requires SameElsewhere(s, t, h) && h in s && Height(Nesting(s), x, m)
    ensures Inside(Nesting(t), x, h) <==> Inside(Nesting(s), x, h)
    decreases m
  {
    if x == h {
      assert Path(Nesting(s), x, h, 0) && Path(Nesting(t), x, h, 0);
    } else if m == 0 {
      InsideRoot(Nesting(s), x, h);
      InsideRoot(Nesting(t), x, h);
    } else {
      InsideUp(Nesting(s), x, h);
      InsideUp(Nesting(t), x, h);
      SameInsides(s, t, h, s[x].parent.value, m - 1);
    }
  }

  /** What is inside a unit does not depend on where the unit itself is. */
  lemma SameContents(s: Units, t: Units, h: Name)
    requires Acyclic(Nesting(s)) && SameElsewhere(s, t, h) && h in s
    ensures forall x <- s.Keys :: Inside(Nesting(t), x, h) <==> Inside(Nesting(s), x, h)
  {
    forall x | x in s.Keys ensures Inside(Nesting(t), x, h) <==> Inside(Nesting(s), x, h) {
      assert Rooted(Nesting(s), x);
      var m: nat :| Height(Nesting(s), x, m);
      SameInsides(s, t, h, x, m);
    }
  }

  lemma {:induction false} InsideIsTogether(s: Units, x: Name, h: Name, n: nat)
    requires (forall y <- s.Keys :: Together(s, y)) && Path(Nesting(s), x, h, n)
    ensures h in s && s[x].bin == s[h].bin && s[x].warehouse == s[h].warehouse
    decreases n
  {
    if n != 0 {
      assert Together(s, x);
      InsideIsTogether(s, s[x].parent.value, h, n - 1);
    }
  }

  // ---------------------------------------------------------------- arriving somewhere

  /** `h` has a new place; all of its contents are there with it, everything else is where it was. */
  ghost predicate Placed(s: Units, t: Units, h: Name, unit: Unit) {
    && t.Keys == s.Keys
    && h in s
    && forall x <- s.Keys ::
      && t[x].parent == (if x == h then unit.parent else s[x].parent)
      && t[x].bin == (if Inside(Nesting(s), x, h) then unit.bin else s[x].bin)
      && t[x].warehouse == s[x].warehouse
  }

  lemma ArrivalIsPlaced(s: Units, h: Name, unit: Unit)
    requires Forest(s) && h in s && unit.warehouse == s[h].warehouse && Arrive(s, h, unit).Some?
    ensures Placed(s, Arrive(s, h, unit).value, h, unit)
  {
    var saved := Save(s, h, unit).value;
    SameContents(s, saved, h);
    InsideSelf(Nesting(s), h);
    forall x | x in s && Inside(Nesting(s), x, h) ensures s[x].bin == s[h].bin {
      var n: nat :| Path(Nesting(s), x, h, n);
      InsideIsTogether(s, x, h, n);
    }
  }

  lemma PlacedIsForest(s: Units, t: Units, h: Name, unit: Unit)
    requires Forest(s) && Placed(s, t, h, unit) && unit.warehouse == s[h].warehouse
    requires unit.parent.Some? ==> var p := unit.parent.value;
      p in s && !Inside(Nesting(s), p, h) && s[p].bin == unit.bin && s[p].warehouse == unit.warehouse
    ensures Forest(t)
  {
    NewParentIsAcyclic(s, t, h);
    InsideSelf(Nesting(s), h);
    forall x | x in t ensures Together(t, x) {
      assert Together(s, x);
      if x != h && s[x].parent.Some? { InsideUp(Nesting(s), x, h); }
    }
  }

  lemma ArrivalKeepsForest(s: Units, h: Name, unit: Unit)
    requires Forest(s) && h in s && unit.warehouse == s[h].warehouse && Arrive(s, h, unit).Some?
    ensures Forest(Arrive(s, h, unit).value)
  {
    ArrivalIsPlaced(s, h, unit);
    if unit.parent.Some? { SaveSucceedsExactly(s, h, unit); }
    PlacedIsForest(s, Arrive(s, h, unit).value, h, unit);
  }

  // ---------------------------------------------------------------- the services

  /** Nesting is refused exactly for a missing or nested unit, another warehouse, or a parent inside the unit. */
  lemma NestSucceedsExactly(s: Units, h: Name, p: Name)
    requires Forest(s)
    ensures Nest(s, h, p).Some? <==>
        h in s && p in s && s[h].parent.None? && s[h].warehouse == s[p].warehouse && !Inside(Nesting(s), p, h)
  {
    if h in s && p in s {
      SaveSucceedsExactly(s, h, s[h].(parent := Some(p), bin := s[p].bin));
      if h == p { assert Path(Nesting(s), p, h, 0); }
    }
  }

  lemma NestPlaces(s: Units, h: Name, p: Name)
    requires Forest(s) && Nest(s, h, p).Some?
    ensures Placed(s, Nest(s, h, p).value, h, s[h].(parent := Some(p), bin := s[p].bin)) && Forest(Nest(s, h, p).value)
  {
    ArrivalIsPlaced(s, h, s[h].(parent := Some(p), bin := s[p].bin));
    ArrivalKeepsForest(s, h, s[h].(parent := Some(p), bin := s[p].bin));
  }

  /** Relocating takes along exactly the unit and everything inside it, and leaves it on its own. */
  lemma RelocateMovesExactly(s: Units, h: Name, bin: string, fits: bool)
    requires Forest(s) && Relocate(s, h, bin, fits).Some?
    ensures Placed(s, Relocate(s, h, bin, fits).value, h, s[h].(parent := None, bin := bin))
    ensures Forest(Relocate(s, h, bin, fits).value)
  {
    ArrivalIsPlaced(s, h, s[h].(parent := None, bin := bin));
    ArrivalKeepsForest(s, h, s[h].(parent := None, bin := bin));
  }

  lemma UnnestPlaces(s: Units, h: Name)
    requires Forest(s) && Unnest(s, h).Some?
    ensures Placed(s, Unnest(s, h).value, h, s[h].(parent := None)) && Forest(Unnest(s, h).value)
  {
    assert Arrive(s, h, s[h].(parent := None)) == Unnest(s, h);
    ArrivalIsPlaced(s, h, s[h].(parent := None));
    ArrivalKeepsForest(s, h, s[h].(parent := None));
  }

  /** Out of the old parent, into the new one. */
  ghost function Rehome(s: Units, h: Name, dest: Name): Option<Units> {
    match if h in s && s[h].parent.Some? then Unnest(s, h) else Some(s)
    case None => None
    case Some(loose) => Nest(loose, h, dest)
  }

  lemma RehomePlaces(s: Units, h: Name, dest: Name)
    requires Forest(s) && h in s && dest in s && !Inside(Nesting(s), dest, h)
    ensures Rehome(s, h, dest).Some? <==> s[h].warehouse == s[dest].warehouse
    ensures Rehome(s, h, dest).Some? ==>
        && Forest(Rehome(s, h, dest).value)
        && Placed(s, Rehome(s, h, dest).value, h, s[h].(parent := Some(dest), bin := s[dest].bin))
  {
    var loose := if s[h].parent.Some? then Unnest(s, h).value else s;
    if s[h].parent.Some? { UnnestPlaces(s, h); }
    SameContents(s, loose, h);
    NestSucceedsExactly(loose, h, dest);
    if Nest(loose, h, dest).Some? { NestPlaces(loose, h, dest); }
    SameBinsInside(s, h);
  }

  lemma SameBinsInside(s: Units, h: Name)
    requires Forest(s) && h in s
    ensures forall x <- s.Keys :: Inside(Nesting(s), x, h) ==> s[x].bin == s[h].bin
  {
    forall x | x in s.Keys && Inside(Nesting(s), x, h) ensures s[x].bin == s[h].bin {
      var n: nat :| Path(Nesting(s), x, h, n);
      InsideIsTogether(s, x, h, n);
    }
  }

  /** Packing at a station fails exactly when it should: the check of the contents leaves nothing for the validation to
      refuse. */
  lemma PackSucceedsExactly(s: Units, h: Name, dest: Name, station: string, open: bool)
    requires Forest(s)
    ensures Pack(s, h, dest, station, open).Some? <==>
      open && h in s && dest in s && s[h].bin == s[dest].bin == station && !Inside(Nesting(s), dest, h) &&
          s[h].warehouse == s[dest].warehouse
    ensures Pack(s, h, dest, station, open).Some? ==> Forest(Pack(s, h, dest, station, open).value)
    ensures Pack(s, h, dest, station, open).Some? ==>
        Placed(s, Pack(s, h, dest, station, open).value, h, s[h].(parent := Some(dest)))
  {
    if h == dest && h in s { assert Path(Nesting(s), dest, h, 0); }
    if h in s && dest in s && !Inside(Nesting(s), dest, h) { RehomePlaces(s, h, dest); }
  }

  lemma DropSucceedsExactly(s: Units, h: Name, d: Name, bin: string, fits: bool)
    requires Forest(s)
    ensures Drop(s, h, Some(d), bin, fits).Some? <==>
      h in s && d in s && !Inside(Nesting(s), d, h) && s[h].parent != Some(d) && s[h].warehouse == s[d].warehouse
    ensures Drop(s, h, Some(d), bin, fits).Some? ==> Forest(Drop(s, h, Some(d), bin, fits).value)
    ensures Drop(s, h, Some(d), bin, fits).Some? ==>
        Placed(s, Drop(s, h, Some(d), bin, fits).value, h, s[h].(parent := Some(d), bin := s[d].bin))
  {
    if h in s && d in s && !Inside(Nesting(s), d, h) { RehomePlaces(s, h, d); }
  }

  // ---------------------------------------------------------------- a unit leaves

  lemma {:induction false} HeightWithout(s: Units, h: Name, x: Name, m: nat)
    requires !HasChildren(s, h) && x != h && Height(Nesting(s), x, m)
    ensures Height(Nesting(s - {h}), x, m)
    decreases m
  {
    if m != 0 {
      assert s[x].parent.value != h;
      HeightWithout(s, h, s[x].parent.value, m - 1);
    }
  }

  lemma RecycleKeepsForest(s: Units, h: Name, idle: bool)
    requires Forest(s) && Recycle(s, h, idle).Some?
    ensures Forest(Recycle(s, h, idle).value)
  {
    var t := s - {h};
    forall x | x in t ensures Rooted(Nesting(t), x) && Together(t, x) {
      assert Together(s, x);
      var m: nat :| Height(Nesting(s), x, m);
      HeightWithout(s, h, x, m);
    }
  }

  lemma DeleteKeepsForest(s: Units, h: Name, station: string, empty: bool)
    requires Forest(s) && DeleteEmpty(s, h, station, empty).Some?
    ensures Forest(DeleteEmpty(s, h, station, empty).value)
  {
    var loose := if s[h].parent.Some? then Unnest(s, h).value else s;
    if s[h].parent.Some? { UnnestPlaces(s, h); }
    var t := DeleteEmpty(s, h, station, empty).value;
    assert SameParents(loose, t);
    SameNesting(loose, t);
    forall x | x in t ensures Together(t, x) {
      assert Together(loose, x);
      assert loose[x].parent != Some(h) by { assert s[x].parent != Some(h); }
    }
  }

  lemma CreateKeepsForest(s: Units, h: Name, bin: string, warehouse: string)
    requires Forest(s) && Create(s, h, bin, warehouse).Some?
    ensures Forest(Create(s, h, bin, warehouse).value)
  {
    var t := Create(s, h, bin, warehouse).value;
    NewParentIsAcyclic(s, t, h);
    forall x | x in t ensures Together(t, x) {
      if x != h { assert Together(s, x); }
    }
  }

  /** Every other unit is as it was. */
  ghost predicate OthersStay(s: Units, t: Units, h: Name) {
    forall x :: x != h ==> (x in t <==> x in s) && (x in s ==> t[x] == s[x])
  }

  ghost predicate HoldsNone(s: Units, h: Name) { forall c <- s.Keys :: s[c].parent != Some(h) }

  /** A unit comes into the warehouse loose, and goes again only idle, loose and holding no other. */
  lemma ComesAndGoesExactly(s: Units, h: Name, bin: string, warehouse: string, idle: bool)
    ensures Create(s, h, bin, warehouse).Some? <==> h !in s
    ensures Create(s, h, bin, warehouse).Some? ==> var t := Create(s, h, bin, warehouse).value;
      OthersStay(s, t, h) && h in t && t[h] == Unit(None, bin, warehouse, h, 0)
    ensures Recycle(s, h, idle).Some? <==> h in s && idle && s[h].parent.None? && HoldsNone(s, h)
    ensures Recycle(s, h, idle).Some? ==> OthersStay(s, Recycle(s, h, idle).value, h) && h !in Recycle(s, h, idle).value
  {
  }

  /** An empty unit on the table is taken away; it is on its own and in no bin then, and everything else as before. */
  lemma EmptyIsTakenAwayExactly(s: Units, h: Name, station: string, empty: bool)
    requires Forest(s)
    ensures DeleteEmpty(s, h, station, empty).Some? <==> h in s && s[h].bin == station && empty && HoldsNone(s, h)
    ensures DeleteEmpty(s, h, station, empty).Some? ==> var t := DeleteEmpty(s, h, station, empty).value;
      OthersStay(s, t, h) && h in t && t[h].parent.None? && t[h].bin == "" && t[h].warehouse == s[h].warehouse
  {
  }

  /** Only a nested unit is unnested, and a unit relocated wherever it fits and is not on its own already. */
  lemma LeavesExactly(s: Units, h: Name, bin: string, fits: bool)
    requires Forest(s)
    ensures Unnest(s, h).Some? <==> h in s && s[h].parent.Some?
    ensures Unnest(s, h).Some? ==> var t := Unnest(s, h).value;
      OthersStay(s, t, h) && h in t && t[h] == Unit(None, s[h].bin, s[h].warehouse, h, 0)
    ensures Relocate(s, h, bin, fits).Some? <==> h in s && fits && (s[h].bin != bin || s[h].parent.Some?)
  {
  }

  // ---------------------------------------------------------------- every run

  lemma StepKeepsForest(s: Units, step: Step)
    requires Forest(s) && Attempt(s, step).Some?
    ensures Forest(Attempt(s, step).value)
  {
    match step
    case CreateStep(h, bin, warehouse) => CreateKeepsForest(s, h, bin, warehouse);
    case NestStep(h, parent) => NestPlaces(s, h, parent);
    case UnnestStep(h) => UnnestPlaces(s, h);
    case RelocateStep(h, bin, fits) => RelocateMovesExactly(s, h, bin, fits);
    case PackStep(h, dest, station, open) => PackSucceedsExactly(s, h, dest, station, open);
    case DropStep(h, target, bin, fits) =>
      if target.Some? { DropSucceedsExactly(s, h, target.value, bin, fits); }
          else { RelocateMovesExactly(s, h, bin, fits); }
    case RecycleStep(h, idle) => RecycleKeepsForest(s, h, idle);
    case DeleteStep(h, station, empty) => DeleteKeepsForest(s, h, station, empty);
  }

  /** Over every run of the services, nothing is ever inside itself and every unit is where its parent is. */
  lemma {:induction false} RunKeepsForest(s: Units, steps: seq<Step>)
    requires Forest(s)
    ensures Forest(Run(s, steps))
    decreases |steps|
  {
    if |steps| != 0 {
      if Attempt(s, steps[0]).Some? { StepKeepsForest(s, steps[0]); }
      RunKeepsForest(Attempt(s, steps[0]).GetOr(s), steps[1..]);
    }
  }

  // ---------------------------------------------------------------- the stored top unit

  /** The stored top and level are those of the hierarchy. */
  ghost predicate Labelled(s: Units, h: Name) {
    h in s && Path(Nesting(s), h, s[h].top, s[h].level) && s[h].top in s && s[s[h].top].parent.None?
  }

  ghost predicate AllLabelled(s: Units) { forall h <- s.Keys :: Labelled(s, h) }

  lemma {:induction false} PathApart(s: Units, t: Units, h: Name, x: Name, a: Name, n: nat)
    requires SameElsewhere(s, t, h) && Path(Nesting(s), x, a, n) && !Inside(Nesting(s), x, h)
    ensures Path(Nesting(t), x, a, n) && a != h
    decreases n
  {
    if x == h { assert Path(Nesting(s), x, h, 0); }
    if n != 0 {
      InsideUp(Nesting(s), x, h);
      PathApart(s, t, h, s[x].parent.value, a, n - 1);
    }
  }

  lemma {:induction false} NoChildNothingInside(s: Units, x: Name, h: Name, n: nat)
    requires Path(Nesting(s), x, h, n) && !HasChildren(s, h)
    ensures x == h
    decreases n
  {
    if n != 0 {
      NoChildNothingInside(s, s[x].parent.value, h, n - 1);
    }
  }

  lemma ArrivalKeepsLabels(s: Units, h: Name, unit: Unit)
    requires h in s && Arrive(s, h, unit).Some?
    ensures var t := Arrive(s, h, unit).value; var saved := Save(s, h, unit).value;
      t.Keys == s.Keys && t[h].top == saved[h].top && t[h].level == saved[h].level
      && forall x <- s.Keys :: x != h ==> t[x].top == s[x].top && t[x].level == s[x].level
  {
  }

  lemma RootIsUnique(s: Units, h: Name, a: Name, m: nat, b: Name, n: nat)
    requires Path(Nesting(s), h, a, m) && Path(Nesting(s), h, b, n)
    requires a in s && s[a].parent.None? && b in s && s[b].parent.None?
    ensures a == b && m == n
    decreases m
  {
    if m != 0 && n != 0 { RootIsUnique(s, s[h].parent.value, a, m - 1, b, n - 1); }
  }

  /** What is outside the moved unit keeps its labels. */
  lemma OutsideStaysLabelled(s: Units, t: Units, h: Name, x: Name)
    requires Labelled(s, x) && h in s && !Inside(Nesting(s), x, h)
    requires SameElsewhere(s, t, h) && x in t && t[x].top == s[x].top && t[x].level == s[x].level
    ensures Labelled(t, x)
  {
    PathApart(s, t, h, x, s[x].top, s[x].level);
    assert s[x].top != h;
  }

  lemma {:induction false} PathTo(s: Units, t: Units, h: Name, x: Name, k: nat)
    requires SameElsewhere(s, t, h) && h in s && Path(Nesting(s), x, h, k)
    ensures exists n: nat :: n <= k && Path(Nesting(t), x, h, n) && Path(Nesting(s), x, h, n)
    decreases k
  {
    if x == h {
      assert Path(Nesting(t), x, h, 0) && Path(Nesting(s), x, h, 0);
    } else {
      PathTo(s, t, h, s[x].parent.value, k - 1);
      var n: nat :| n <= k - 1 && Path(Nesting(t), s[x].parent.value, h, n) &&
          Path(Nesting(s), s[x].parent.value, h, n);
      assert Path(Nesting(t), x, h, n + 1) && Path(Nesting(s), x, h, n + 1);
    }
  }

  /** What is inside keeps its labels if the unit itself keeps them. */
  lemma InsideStaysLabelled(s: Units, t: Units, h: Name, x: Name)
    requires Labelled(s, x) && Labelled(s, h) && Labelled(t, h) && t[h].top == s[h].top && t[h].level == s[h].level
    requires Inside(Nesting(s), x, h) && SameElsewhere(s, t, h) && x in t && t[x].top == s[x].top
    requires t[x].level == s[x].level
    ensures Labelled(t, x)
  {
    var k: nat :| Path(Nesting(s), x, h, k);
    PathTo(s, t, h, x, k);
    var n: nat :| n <= k && Path(Nesting(t), x, h, n) && Path(Nesting(s), x, h, n);
    PathTrans(Nesting(s), x, h, s[h].top, n, s[h].level);
    RootIsUnique(s, x, s[x].top, s[x].level, s[h].top, n + s[h].level);
    PathTrans(Nesting(t), x, h, t[h].top, n, t[h].level);
  }

  /** A child's labels follow from its parent's. */
  lemma ChildLabels(s: Units, h: Name, c: Name)
    requires Labelled(s, h) && Labelled(s, c) && s[c].parent == Some(h)
    ensures s[c].top == s[h].top && s[c].level == s[h].level + 1
  {
    assert Path(Nesting(s), c, s[h].top, s[h].level + 1);
    RootIsUnique(s, c, s[c].top, s[c].level, s[h].top, s[h].level + 1);
  }

  ghost predicate SameLabels(s: Units, t: Units, h: Name) {
    h in s && h in t && t[h].top == s[h].top && t[h].level == s[h].level
  }

  /** Only the moved unit's own labels are renewed: all hold afterwards exactly when it holds no other unit or its
      labels did not change. */
  lemma MovedKeepsLabelsExactly(s: Units, t: Units, h: Name)
    requires AllLabelled(s) && h in s && SameElsewhere(s, t, h) && Labelled(t, h)
    requires forall x <- s.Keys :: x != h ==> x in t && SameLabels(s, t, x)
    ensures AllLabelled(t) <==> !HasChildren(s, h) || SameLabels(s, t, h)
  {
    if HasChildren(s, h) && AllLabelled(t) {
      var c :| c in s.Keys && s[c].parent == Some(h);
      if c != h {
        ChildLabels(s, h, c);
        ChildLabels(t, h, c);
      } else {
        ChildLabels(s, h, h);
      }
    }
    if !HasChildren(s, h) || SameLabels(s, t, h) {
      forall x | x in t ensures Labelled(t, x) {
        if x != h {
          if Inside(Nesting(s), x, h) {
            if HasChildren(s, h) { InsideStaysLabelled(s, t, h, x); } else { NothingInside(s, x, h); }
          } else {
            OutsideStaysLabelled(s, t, h, x);
          }
        }
      }
    }
  }

  lemma NothingInside(s: Units, x: Name, h: Name)
    requires !HasChildren(s, h) && Inside(Nesting(s), x, h)
    ensures x == h
  {
    var n: nat :| Path(Nesting(s), x, h, n);
    NoChildNothingInside(s, x, h, n);
  }

  lemma LabelOfRoot(s: Units, p: Name, m: nat)
    requires Labelled(s, p) && Height(Nesting(s), p, m)
    ensures s[p].level == m
  {
    HeightAlong(Nesting(s), p, s[p].top, s[p].level, m);
  }

  /** Saving below a parent takes the parent's top and the next level. */
  lemma SavedLabels(s: Units, h: Name, p: Name, unit: Unit)
    requires Forest(s) && Labelled(s, p) && unit.parent == Some(p) && Save(s, h, unit).Some?
    ensures var saved := Save(s, h, unit).value[h];
      saved.top in s && s[saved.top].parent.None? && saved.level == s[p].level + 1 &&
          Path(Nesting(s), p, saved.top, s[p].level)
  {
    var m: nat :| Height(Nesting(s), p, m);
    WalkFinds(s, {h}, p, h, m);
    LabelOfRoot(s, p, m);
  }

  /** Afterwards the unit shows the top of its new parent and the next level. */
  ghost predicate IsUnder(s: Units, t: Units, h: Name, p: Name) {
    h in t && p in s && t[h].top == s[p].top && t[h].level == s[p].level + 1
  }

  /** After an arrival the unit's own labels are right, and no other label has been touched. */
  lemma ArrivalLabels(s: Units, h: Name, unit: Unit)
    requires Forest(s) && h in s && unit.warehouse == s[h].warehouse && Arrive(s, h, unit).Some?
    requires unit.parent.Some? ==> Labelled(s, unit.parent.value)
    ensures var t := Arrive(s, h, unit).value;
      Labelled(t, h) && SameElsewhere(s, t, h) && forall x <- s.Keys :: x != h ==> SameLabels(s, t, x)
    ensures unit.parent.Some? ==> IsUnder(s, Arrive(s, h, unit).value, h, unit.parent.value)
    ensures unit.parent.None? ==> Arrive(s, h, unit).value[h].top == h && Arrive(s, h, unit).value[h].level == 0
  {
    var t := Arrive(s, h, unit).value;
    ArrivalIsPlaced(s, h, unit);
    ArrivalKeepsLabels(s, h, unit);
    if unit.parent.Some? {
      var p := unit.parent.value;
      SaveSucceedsExactly(s, h, unit);
      SavedLabels(s, h, p, unit);
      PathApart(s, t, h, p, t[h].top, s[p].level);
      assert Path(Nesting(t), h, t[h].top, s[p].level + 1);
      RootIsUnique(s, p, s[p].top, s[p].level, t[h].top, s[p].level);
    } else {
      assert Path(Nesting(t), h, h, 0);
    }
  }

  lemma RehomeLabels(s: Units, h: Name, dest: Name)
    requires Forest(s) && AllLabelled(s) && h in s && dest in s && !Inside(Nesting(s), dest, h)
    requires Rehome(s, h, dest).Some?
    ensures var t := Rehome(s, h, dest).value;
      Labelled(t, h) && SameElsewhere(s, t, h) && forall x <- s.Keys :: x != h ==> SameLabels(s, t, x)
    ensures IsUnder(s, Rehome(s, h, dest).value, h, dest)
  {
    var loose := if s[h].parent.Some? then Unnest(s, h).value else s;
    if s[h].parent.Some? {
      UnnestPlaces(s, h);
      assert Arrive(s, h, s[h].(parent := None)) == Unnest(s, h);
      ArrivalLabels(s, h, s[h].(parent := None));
      if dest != h { OutsideStaysLabelled(s, loose, h, dest); }
    }
    ArrivalLabels(loose, h, loose[h].(parent := Some(dest), bin := loose[dest].bin));
  }

  /** Only the unit's own labels may have been renewed, and what holds everywhere depends on that alone. */
  ghost predicate LabelsFollow(s: Units, t: Units, h: Name) {
    AllLabelled(t) <==> !HasChildren(s, h) || SameLabels(s, t, h)
  }

  lemma ArrivalKeepsLabelsExactly(s: Units, h: Name, unit: Unit)
    requires Forest(s) && AllLabelled(s) && h in s && unit.warehouse == s[h].warehouse && Arrive(s, h, unit).Some?
    ensures LabelsFollow(s, Arrive(s, h, unit).value, h)
  {
    if unit.parent.Some? {
      SaveSucceedsExactly(s, h, unit);
      assert Labelled(s, unit.parent.value);
    }
    ArrivalLabels(s, h, unit);
    MovedKeepsLabelsExactly(s, Arrive(s, h, unit).value, h);
  }

  lemma RehomeKeepsLabelsExactly(s: Units, h: Name, dest: Name)
    requires Forest(s) && AllLabelled(s) && h in s && dest in s && !Inside(Nesting(s), dest, h)
    requires Rehome(s, h, dest).Some?
    ensures LabelsFollow(s, Rehome(s, h, dest).value, h)
  {
    RehomeLabels(s, h, dest);
    MovedKeepsLabelsExactly(s, Rehome(s, h, dest).value, h);
  }

  /** A unit shows its own name and level 0 exactly when it is loose. */
  lemma LooseLabels(s: Units, h: Name)
    requires Labelled(s, h)
    ensures s[h].top == h && s[h].level == 0 <==> s[h].parent.None?
    ensures s[h].level == 0 <==> s[h].parent.None?
  {
  }

  /** The place below `p` has the labels that the unit shows already. */
  predicate FitsUnder(s: Units, h: Name, p: Name) {
    h in s && p in s && s[p].top == s[h].top && s[p].level + 1 == s[h].level
  }

  predicate IsLoose(s: Units, h: Name) { h in s && s[h].parent.None? }

  /** Told before the step: its unit holds no other unit, or will show the labels it shows already. */
  predicate StepSparesLabels(s: Units, step: Step) {
    match step
    case CreateStep(_, _, _) => true
    case NestStep(h, _) => !HasChildren(s, h)
    case UnnestStep(h) => !HasChildren(s, h)
    case RelocateStep(h, _, _) => !HasChildren(s, h) || IsLoose(s, h)
    case PackStep(h, dest, _, _) => !HasChildren(s, h) || FitsUnder(s, h, dest)
    case DropStep(h, target, _, _) =>
      !HasChildren(s, h) || (if target.Some? then FitsUnder(s, h, target.value) else IsLoose(s, h))
    case RecycleStep(_, _) => true
    case DeleteStep(_, _, _) => true
  }

  /** A step leaves all stored tops and levels right exactly when its unit holds no other unit
      or goes to a place with the labels it shows already. */
  lemma StepKeepsLabelsExactly(s: Units, step: Step)
    requires Forest(s) && AllLabelled(s) && Attempt(s, step).Some?
    ensures AllLabelled(Attempt(s, step).value) <==> StepSparesLabels(s, step)
  {
    StepLabelsFollow(s, step);
    RenewedLabels(s, step);
  }

  /** The labels of a step's unit are renewed to others, unless it holds nothing, exactly as foretold. */
  lemma RenewedLabels(s: Units, step: Step)
    requires Forest(s) && AllLabelled(s) && Attempt(s, step).Some?
    ensures StepSparesLabels(s, step) <==> !HasChildren(s, step.h) || SameLabels(s, Attempt(s, step).value, step.h)
  {
    match step
    case CreateStep(h, bin, warehouse) => NewIsNobodysParent(s, h);
    case NestStep(h, p) => NestLabels(s, h, p);
    case UnnestStep(h) => UnnestArrival(s, h);
    case RelocateStep(h, bin, fits) => RelocateArrival(s, h, bin, fits);
    case PackStep(h, dest, station, open) => PackArrival(s, h, dest, station, open);
    case DropStep(h, target, bin, fits) =>
      if target.Some? {
        DropArrival(s, h, target.value, bin, fits);
      } else {
        RelocateArrival(s, h, bin, fits);
      }
    case RecycleStep(h, idle) =>
    case DeleteStep(h, station, empty) =>
  }

  lemma RelocateArrival(s: Units, h: Name, bin: string, fits: bool)
    requires Forest(s) && AllLabelled(s) && Relocate(s, h, bin, fits).Some?
    ensures SameLabels(s, Relocate(s, h, bin, fits).value, h) <==> IsLoose(s, h)
  {
    LooseArrival(s, h, s[h].(parent := None, bin := bin));
  }

  lemma UnnestArrival(s: Units, h: Name)
    requires Forest(s) && AllLabelled(s) && Unnest(s, h).Some?
    ensures !SameLabels(s, Unnest(s, h).value, h)
  {
    assert Arrive(s, h, s[h].(parent := None)) == Unnest(s, h);
    LooseArrival(s, h, s[h].(parent := None));
  }

  lemma PackArrival(s: Units, h: Name, dest: Name, station: string, open: bool)
    requires Forest(s) && AllLabelled(s) && Pack(s, h, dest, station, open).Some?
    ensures SameLabels(s, Pack(s, h, dest, station, open).value, h) <==> FitsUnder(s, h, dest)
  {
    assert Pack(s, h, dest, station, open) == Rehome(s, h, dest);
    RehomeLabels(s, h, dest);
  }

  lemma DropArrival(s: Units, h: Name, d: Name, bin: string, fits: bool)
    requires Forest(s) && AllLabelled(s) && Drop(s, h, Some(d), bin, fits).Some?
    ensures SameLabels(s, Drop(s, h, Some(d), bin, fits).value, h) <==> FitsUnder(s, h, d)
  {
    assert Drop(s, h, Some(d), bin, fits) == Rehome(s, h, d);
    RehomeLabels(s, h, d);
  }

  /** Without a parent the unit keeps its labels exactly when it had none before. */
  lemma LooseArrival(s: Units, h: Name, unit: Unit)
    requires Forest(s) && AllLabelled(s) && h in s && unit.warehouse == s[h].warehouse && unit.parent.None?
    ensures Arrive(s, h, unit).Some?
    ensures SameLabels(s, Arrive(s, h, unit).value, h) <==> IsLoose(s, h)
  {
    assert Labelled(s, h);
    LooseLabels(s, h);
    ArrivalLabels(s, h, unit);
  }

  lemma NestLabels(s: Units, h: Name, p: Name)
    requires Forest(s) && AllLabelled(s) && Nest(s, h, p).Some?
    ensures Labelled(Nest(s, h, p).value, h) && IsUnder(s, Nest(s, h, p).value, h, p)
    ensures !SameLabels(s, Nest(s, h, p).value, h)
  {
    assert Labelled(s, h) && Labelled(s, p);
    LooseLabels(s, h);
    ArrivalLabels(s, h, s[h].(parent := Some(p), bin := s[p].bin));
  }

  /** Nesting a unit leaves stale labels on every unit it holds directly. */
  lemma NestingLeavesStaleLabels(s: Units, h: Name, p: Name, c: Name)
    requires Forest(s) && AllLabelled(s) && Nest(s, h, p).Some? && c in s && s[c].parent == Some(h)
    ensures c in Nest(s, h, p).value && Nest(s, h, p).value[c].parent == Some(h)
    ensures !Labelled(Nest(s, h, p).value, c)
  {
    var t := Nest(s, h, p).value;
    NestLabels(s, h, p);
    NoSelfParent(Nesting(s), h);
    assert Labelled(s, h) && Labelled(s, c);
    ArrivalLabels(s, h, s[h].(parent := Some(p), bin := s[p].bin));
    ChildLabels(s, h, c);
    assert SameLabels(s, t, c);
    if Labelled(t, c) { ChildLabels(t, h, c); }
  }

  lemma StepLabelsFollow(s: Units, step: Step)
    requires Forest(s) && AllLabelled(s) && Attempt(s, step).Some?
    ensures LabelsFollow(s, Attempt(s, step).value, step.h)
  {
    match step
    case CreateStep(h, bin, warehouse) => CreateLabels(s, h, bin, warehouse);
    case NestStep(h, p) => ArrivalKeepsLabelsExactly(s, h, s[h].(parent := Some(p), bin := s[p].bin));
    case UnnestStep(h) => UnnestLabels(s, h);
    case RelocateStep(h, bin, fits) => ArrivalKeepsLabelsExactly(s, h, s[h].(parent := None, bin := bin));
    case PackStep(h, dest, station, open) => PackLabels(s, h, dest, station, open);
    case DropStep(h, target, bin, fits) =>
      if target.Some? { DropLabels(s, h, target.value, bin, fits); }
          else { ArrivalKeepsLabelsExactly(s, h, s[h].(parent := None, bin := bin)); }
    case RecycleStep(h, idle) => GoneLabels(s, h);
    case DeleteStep(h, station, empty) => DeleteLabels(s, h, station, empty);
  }

  lemma UnnestLabels(s: Units, h: Name)
    requires Forest(s) && AllLabelled(s) && Unnest(s, h).Some?
    ensures LabelsFollow(s, Unnest(s, h).value, h)
  {
    assert Arrive(s, h, s[h].(parent := None)) == Unnest(s, h);
    ArrivalKeepsLabelsExactly(s, h, s[h].(parent := None));
  }

  lemma PackLabels(s: Units, h: Name, dest: Name, station: string, open: bool)
    requires Forest(s) && AllLabelled(s) && Pack(s, h, dest, station, open).Some?
    ensures LabelsFollow(s, Pack(s, h, dest, station, open).value, h)
  {
    assert Pack(s, h, dest, station, open) == Rehome(s, h, dest);
    RehomeKeepsLabelsExactly(s, h, dest);
  }

  lemma DropLabels(s: Units, h: Name, d: Name, bin: string, fits: bool)
    requires Forest(s) && AllLabelled(s) && Drop(s, h, Some(d), bin, fits).Some?
    ensures LabelsFollow(s, Drop(s, h, Some(d), bin, fits).value, h)
  {
    assert Drop(s, h, Some(d), bin, fits) == Rehome(s, h, d);
    RehomeKeepsLabelsExactly(s, h, d);
  }

  lemma NewIsNobodysParent(s: Units, h: Name)
    requires Forest(s) && h !in s
    ensures !HasChildren(s, h)
  {
    forall c | c in s.Keys ensures s[c].parent != Some(h) { assert Together(s, c); }
  }

  lemma CreateLabels(s: Units, h: Name, bin: string, warehouse: string)
    requires Forest(s) && AllLabelled(s) && Create(s, h, bin, warehouse).Some?
    ensures LabelsFollow(s, Create(s, h, bin, warehouse).value, h)
  {
    var t := Create(s, h, bin, warehouse).value;
    NewIsNobodysParent(s, h);
    forall x | x in t ensures Labelled(t, x) {
      if x == h { assert Path(Nesting(t), h, h, 0); } else { OtherThanNew(s, t, h, x); }
    }
  }

  lemma OtherThanNew(s: Units, t: Units, h: Name, x: Name)
    requires AllLabelled(s) && h !in s && x in s && x in t && SameElsewhere(s, t, h) && SameLabels(s, t, x)
    ensures Labelled(t, x)
  {
    assert Labelled(s, x);
    if Inside(Nesting(s), x, h) { EndIsIn(s, x, h); }
    PathApart(s, t, h, x, s[x].top, s[x].level);
  }

  lemma EndIsIn(s: Units, x: Name, h: Name)
    requires Inside(Nesting(s), x, h)
    ensures h in s
  {
    var n: nat :| Path(Nesting(s), x, h, n);
    PathEnds(s, x, h, n);
  }

  lemma {:induction false} PathEnds(s: Units, x: Name, h: Name, n: nat)
    requires Path(Nesting(s), x, h, n)
    ensures h in s
    decreases n
  {
    if n != 0 { PathEnds(s, s[x].parent.value, h, n - 1); }
  }

  lemma {:induction false} PathWithout(s: Units, h: Name, x: Name, a: Name, n: nat)
    requires !HasChildren(s, h) && x != h && Path(Nesting(s), x, a, n)
    ensures Path(Nesting(s - {h}), x, a, n) && a != h
    decreases n
  {
    if n != 0 {
      assert s[x].parent.value != h;
      PathWithout(s, h, s[x].parent.value, a, n - 1);
    }
  }

  lemma GoneLabels(s: Units, h: Name)
    requires AllLabelled(s) && !HasChildren(s, h)
    ensures LabelsFollow(s, s - {h}, h)
  {
    forall x | x in s - {h} ensures Labelled(s - {h}, x) {
      assert Labelled(s, x);
      PathWithout(s, h, x, s[x].top, s[x].level);
    }
  }

  lemma BinsDoNotMatter(s: Units, h: Name, bin: string)
    requires AllLabelled(s) && h in s
    ensures AllLabelled(s[h := s[h].(bin := bin)])
  {
    var t := s[h := s[h].(bin := bin)];
    assert SameParents(s, t);
    SameNesting(s, t);
    forall x | x in t ensures Labelled(t, x) { assert Labelled(s, x); }
  }

  lemma DeleteLabels(s: Units, h: Name, station: string, empty: bool)
    requires Forest(s) && AllLabelled(s) && DeleteEmpty(s, h, station, empty).Some?
    ensures LabelsFollow(s, DeleteEmpty(s, h, station, empty).value, h)
  {
    if s[h].parent.Some? {
      UnnestLabels(s, h);
      BinsDoNotMatter(Unnest(s, h).value, h, "");
    } else {
      BinsDoNotMatter(s, h, "");
    }
  }
}
