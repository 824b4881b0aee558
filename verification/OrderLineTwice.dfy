/** Deliveries that carry one order line more than once: when a cut is still followed. */
module OrderLineTwice {
  import opened Basics
  import opened Sums
  import opened Sorting
  import opened OrderUpdate
  import opened OrderTotals
  import opened OrderRows

  ghost predicate Sane(ds: seq<Delivery>) {
    forall i, p :: 0 <= i < |ds| && IsOpen(ds[i]) && 0 <= p < |ds[i].lines| ==> ProperLine(ds[i].lines[p])
  }

  /** What the lines before position `k` give first. */
  function Before(refs: seq<Ref>, k: nat): real
    requires k <= |refs|
  {
    Sum(refs[..k], FreeOf())
  }

  /** The line loses all its quantity, and its delivery is replaced. */
  predicate Empties(ds: seq<Delivery>, r: Ref, left: real)
    requires r.parent < |ds|
  {
    !Started(ds[r.parent]) && Emptiable(r.line) && left >= r.line.qty
  }

  /** The delivery of the line is asked for some of it; a draft is loaded even when nothing is free. */
  predicate Touches(ds: seq<Delivery>, r: Ref, left: real)
    requires r.parent < |ds|
  {
    left > 0.0 && (FreeQty(r.line) > 0.0 || ds[r.parent].status.Draft?)
  }

  /** Line `k` is emptied, and its delivery asked again for line `j`. */
  predicate Asked(ds: seq<Delivery>, refs: seq<Ref>, amount: real, k: nat, j: nat)
    requires k < j < |refs| && forall m :: 0 <= m < |refs| ==> refs[m].parent < |ds|
  {
    refs[k].parent == refs[j].parent && Empties(ds, refs[k], amount - Before(refs, k)) &&
        Touches(ds, refs[j], amount - Before(refs, j))
  }

  ghost predicate Clash(ds: seq<Delivery>, refs: seq<Ref>, amount: real, drafts: bool)
    requires forall m :: 0 <= m < |refs| ==> refs[m].parent < |ds|
  {
    exists k, j :: 0 <= k < j < |refs| && (drafts ==> ds[refs[j].parent].status.Draft?) && Asked(ds, refs, amount, k, j)
  }

  // ---------------------------------------------------------------- the same, turn by turn

  /** The deliveries in `gone` are withdrawn already. */
  predicate Hit(ds: seq<Delivery>, r: Ref, left: real, gone: set<nat>, drafts: bool)
    requires r.parent < |ds|
  {
    r.parent in gone && Touches(ds, r, left) && (drafts ==> ds[r.parent].status.Draft?)
  }

  function Withdraws(ds: seq<Delivery>, r: Ref, left: real, gone: set<nat>): set<nat>
    requires r.parent < |ds|
  {
    if Empties(ds, r, left) then gone + {r.parent} else gone
  }

  predicate Troubled(ds: seq<Delivery>, refs: seq<Ref>, j: nat, left: real, gone: set<nat>, drafts: bool)
    requires j <= |refs| && forall m :: 0 <= m < |refs| ==> refs[m].parent < |ds|
    decreases |refs| - j
  {
    j < |refs| && (Hit(ds, refs[j], left, gone, drafts) ||
        Troubled(ds, refs, j + 1, left - Taken(refs[j], left), Withdraws(ds, refs[j], left, gone), drafts))
  }

  /** Where the line of a reference is, `gone` telling which deliveries are withdrawn. */
  ghost predicate PlacedAt(ds: seq<Delivery>, x: seq<Delivery>, r: Ref, gone: set<nat>, id: string) {
    && Points(ds, r) && Points(x, r) && IsOpen(ds[r.parent]) && r.line.orderLine == id && ProperLine(r.line)
    && x[r.parent].lines[r.pos] == r.line
    && Started(x[r.parent]) == Started(ds[r.parent])
    && x[r.parent].status == if r.parent in gone then Withdrawn(ds[r.parent].status) else ds[r.parent].status
  }

  ghost predicate Placed(ds: seq<Delivery>, x: seq<Delivery>, refs: seq<Ref>, j: nat, gone: set<nat>, id: string) {
    forall m :: j <= m < |refs| ==> PlacedAt(ds, x, refs[m], gone, id)
  }

  predicate OtherPlace(a: Ref, b: Ref) { a.parent != b.parent || a.pos != b.pos }

  ghost predicate Places(refs: seq<Ref>) { forall j, k :: 0 <= j < k < |refs| ==> OtherPlace(refs[j], refs[k]) }

  lemma OpenNoHeavier(kept: seq<Line>, mode: Mode, i: nat, found: FollowUp, id: string)
    ensures NoHeavier(OnLine(id, OpenPart()), kept, NewDelivery(kept, mode, i, found), true)
  {
    forall p | 0 <= p < |kept| ensures |NewDelivery(kept, mode, i, found).lines| == |kept| &&
        OpenQty(NewDelivery(kept, mode, i, found).lines[p]) == OpenQty(kept[p])
      && NewDelivery(kept, mode, i, found).lines[p].orderLine == kept[p].orderLine {
      var t := RenewedAt(kept, mode, i, found, p);
    }
  }

  /** An open delivery gives exactly what is taken. */
  lemma OpenGives(x: seq<Delivery>, found: FollowUp, r: Ref, left: real, id: string)
    requires Current(x, r, id) && ProperLine(r.line) && Taken(r, left) > 0.0
    ensures TakeFrom(x, found, r, left).Some?
    ensures OnWms(TakeFrom(x, found, r, left).value, id) == OnWms(x, id) - Taken(r, left)
  {
    var d, w, take := x[r.parent], OnLine(id, OpenPart()), Taken(r, left);
    if r.line.qty - take <= 0.0 && !Started(d) {
      NoneStarted(d);
      assert !LineStarted(d.lines[r.pos]);
      OpenNoHeavier(Without(d.lines, r.pos), d.mode, |x|, found, id);
      RebuildTotal(x, r.parent, Without(d.lines, r.pos), found, w, true);
      WithoutTotal(d.lines, r.pos, LineWorth(w, false));
    } else {
      SetQtyTotal(x, r.parent, r.pos, r.line.qty - take, w);
    }
  }

  /** A withdrawn one gives nothing; it may even be replaced once more. */
  lemma GoneGivesNothing(x: seq<Delivery>, found: FollowUp, r: Ref, left: real, id: string)
    requires Points(x, r) && x[r.parent].status.Cancelled? && Taken(r, left) > 0.0
    ensures TakeFrom(x, found, r, left).Some? && OnWms(TakeFrom(x, found, r, left).value, id) >= OnWms(x, id)
  {
    var d, w := x[r.parent], OnLine(id, OpenPart());
    if r.line.qty - Taken(r, left) <= 0.0 && !Started(d) {
      var kept := Without(d.lines, r.pos);
      var renewed := NewDelivery(kept, d.mode, |x|, found);
      SumUpdate(x, r.parent, d.(status := Withdrawn(d.status)), WorthOf(w));
      SumConcat(x, [renewed], WorthOf(w));
      SumNonNegative(renewed.lines, LineWorth(w, Started(renewed)));
      assert x[r.parent := d] == x && [renewed][..0] == [];
    } else {
      SumUpdate(x, r.parent, d.(lines := d.lines[r.pos := d.lines[r.pos].(qty := r.line.qty - Taken(r, left))]),
          WorthOf(w));
    }
  }

  lemma OthersArePlaced(ds: seq<Delivery>, x: seq<Delivery>, found: FollowUp, refs: seq<Ref>, j: nat, left: real,
        gone: set<nat>, id: string)
    requires j < |refs| && AllPoint(x, refs) && Placed(ds, x, refs, j, gone, id) && Places(refs)
    requires TakeFrom(x, found, refs[j], left).Some?
    ensures Placed(ds, TakeFrom(x, found, refs[j], left).value, refs, j + 1, Withdraws(ds, refs[j], left, gone), id)
  {
    var r, next := refs[j], TakeFrom(x, found, refs[j], left).value;
    assert PlacedAt(ds, x, r, gone, id);
    EmptiesIsRebuilt(x, r, left, id);
    StartedIgnoresQty(x[r.parent].lines, r.pos, r.line.qty - Taken(r, left));
    forall m | j < m < |refs| ensures PlacedAt(ds, next, refs[m], Withdraws(ds, r, left, gone), id) {
      assert PlacedAt(ds, x, refs[m], gone, id) && OtherPlace(r, refs[m]);
    }
  }

  lemma EmptiesIsRebuilt(x: seq<Delivery>, r: Ref, left: real, id: string)
    requires Points(x, r) && x[r.parent].lines[r.pos] == r.line && ProperLine(r.line)
    ensures !Started(x[r.parent]) ==>
        ((Emptiable(r.line) && left >= r.line.qty) <==> (Taken(r, left) > 0.0 && r.line.qty - Taken(r, left) <= 0.0))
  {
    if !Started(x[r.parent]) {
      NoneStarted(x[r.parent]);
      assert !LineStarted(x[r.parent].lines[r.pos]);
    }
  }

  /** One turn: what it does to the total, and when that is not what it takes. */
  lemma TurnGives(ds: seq<Delivery>, x: seq<Delivery>, found: FollowUp, refs: seq<Ref>, j: nat, left: real,
        gone: set<nat>, id: string)
    requires j < |refs| && AllPoint(x, refs) && Placed(ds, x, refs, j, gone, id)
    ensures PlacedAt(ds, x, refs[j], gone, id)
    ensures TakeFrom(x, found, refs[j], left).None? <==> Hit(ds, refs[j], left, gone, true)
    ensures var next := TakeFrom(x, found, refs[j], left); next.Some? ==>
      OnWms(next.value, id) >= OnWms(x, id) - Taken(refs[j], left)
      && (OnWms(next.value, id) == OnWms(x, id) - Taken(refs[j], left) <==> !Hit(ds, refs[j], left, gone, false))
  {
    var r := refs[j];
    assert PlacedAt(ds, x, r, gone, id);
    if Taken(r, left) > 0.0 {
      if r.parent !in gone {
        OpenGives(x, found, r, left, id);
      } else if ds[r.parent].status.Released? {
        GoneGivesNothing(x, found, r, left, id);
      }
    }
  }

  lemma {:induction false} Outcome(ds: seq<Delivery>, x: seq<Delivery>, found: FollowUp, refs: seq<Ref>, j: nat,
        left: real, gone: set<nat>, id: string)
    requires j <= |refs| && AllPoint(ds, refs) && AllPoint(x, refs) && Placed(ds, x, refs, j, gone, id) && Places(refs)
    requires left >= 0.0
    ensures Reduce(x, found, refs, j, left).None? <==> Troubled(ds, refs, j, left, gone, true)
    ensures var after := Reduce(x, found, refs, j, left); after.Some? ==>
      after.value.1 == Lacking(refs, j, left) && OnWms(after.value.0, id) >= OnWms(x, id) - (left - after.value.1)
      && (OnWms(after.value.0, id) == OnWms(x, id) - (left - after.value.1) <==>
          !Troubled(ds, refs, j, left, gone, false))
    decreases |refs| - j
  {
    if j < |refs| {
      TurnGives(ds, x, found, refs, j, left, gone, id);
      LeftAfter(refs, j, left);
      var next := TakeFrom(x, found, refs[j], left);
      if next.Some? {
        OthersArePlaced(ds, x, found, refs, j, left, gone, id);
        StillPoint(x, found, refs, j, left);
        Outcome(ds, next.value, found, refs, j + 1, left - Taken(refs[j], left), Withdraws(ds, refs[j], left, gone),
            id);
      }
    }
  }

  // ---------------------------------------------------------------- told beforehand

  /** Line `m` meets a delivery that is withdrawn, or that a line from `j` on gets withdrawn. */
  ghost predicate Meets(ds: seq<Delivery>, refs: seq<Ref>, amount: real, j: nat, m: nat, gone: set<nat>, drafts: bool)
    requires j <= m < |refs| && forall i :: 0 <= i < |refs| ==> refs[i].parent < |ds|
  {
    && (drafts ==> ds[refs[m].parent].status.Draft?)
    && ((refs[m].parent in gone && Touches(ds, refs[m], amount - Before(refs, m))) ||
        exists k :: j <= k < m && Asked(ds, refs, amount, k, m))
  }

  lemma BeforeNext(refs: seq<Ref>, j: nat, amount: real)
    requires j < |refs|
    ensures Before(refs, j + 1) == Before(refs, j) + FreeQty(refs[j].line)
    ensures Max(amount - Before(refs, j), 0.0) - Taken(refs[j], Max(amount - Before(refs, j), 0.0)) ==
        Max(amount - Before(refs, j + 1), 0.0)
  {
    assert refs[..j + 1][..j] == refs[..j];
  }

  lemma MeetsNext(ds: seq<Delivery>, refs: seq<Ref>, amount: real, j: nat, m: nat, gone: set<nat>, drafts: bool)
    requires j < m < |refs| && forall i :: 0 <= i < |refs| ==> refs[i].parent < |ds|
    ensures Meets(ds, refs, amount, j, m, gone, drafts) <==>
        Meets(ds, refs, amount, j + 1, m, Withdraws(ds, refs[j], amount - Before(refs, j), gone), drafts)
  {
    if k :| j <= k < m && Asked(ds, refs, amount, k, m) { assert k == j || Asked(ds, refs, amount, k, m); }
    assert Asked(ds, refs, amount, j, m) || !Asked(ds, refs, amount, j, m);
  }

  ghost predicate SomeMeets(ds: seq<Delivery>, refs: seq<Ref>, amount: real, j: nat, gone: set<nat>, drafts: bool)
    requires j <= |refs| && forall i :: 0 <= i < |refs| ==> refs[i].parent < |ds|
  {
    exists m :: j <= m < |refs| && Meets(ds, refs, amount, j, m, gone, drafts)
  }

  lemma SomeMeetsNext(ds: seq<Delivery>, refs: seq<Ref>, amount: real, j: nat, gone: set<nat>, drafts: bool)
    requires j < |refs| && forall i :: 0 <= i < |refs| ==> refs[i].parent < |ds|
    ensures SomeMeets(ds, refs, amount, j, gone, drafts)
      <==>
      Meets(ds, refs, amount, j, j, gone, drafts) ||
      SomeMeets(ds, refs, amount, j + 1, Withdraws(ds, refs[j], amount - Before(refs, j), gone), drafts)
  {
    var next, n := Withdraws(ds, refs[j], amount - Before(refs, j), gone), j + 1;
    if m :| j < m < |refs| && Meets(ds, refs, amount, j, m, gone, drafts) {
      MeetsNext(ds, refs, amount, j, m, gone, drafts);
    }
    if m :| n <= m < |refs| && Meets(ds, refs, amount, n, m, next, drafts) {
      MeetsNext(ds, refs, amount, j, m, gone, drafts);
    }
  }

  lemma {:induction false} TroubledIs(ds: seq<Delivery>, refs: seq<Ref>, j: nat, gone: set<nat>, drafts: bool,
        amount: real)
    requires j <= |refs| && forall i :: 0 <= i < |refs| ==> refs[i].parent < |ds|
    ensures Troubled(ds, refs, j, Max(amount - Before(refs, j), 0.0), gone, drafts) <==>
        SomeMeets(ds, refs, amount, j, gone, drafts)
    decreases |refs| - j
  {
    if j < |refs| {
      var next := Withdraws(ds, refs[j], amount - Before(refs, j), gone);
      BeforeNext(refs, j, amount);
      assert Withdraws(ds, refs[j], Max(amount - Before(refs, j), 0.0), gone) == next;
      TroubledIs(ds, refs, j + 1, next, drafts, amount);
      assert Meets(ds, refs, amount, j, j, gone, drafts) <==>
          Hit(ds, refs[j], Max(amount - Before(refs, j), 0.0), gone, drafts);
      SomeMeetsNext(ds, refs, amount, j, gone, drafts);
    }
  }

  lemma TroubledIsClash(ds: seq<Delivery>, refs: seq<Ref>, drafts: bool, amount: real)
    requires amount >= 0.0 && forall i :: 0 <= i < |refs| ==> refs[i].parent < |ds|
    ensures Troubled(ds, refs, 0, amount, {}, drafts) <==> Clash(ds, refs, amount, drafts)
  {
    TroubledIs(ds, refs, 0, {}, drafts, amount);
    assert refs[..0] == [];
    if m :| 0 <= m < |refs| && Meets(ds, refs, amount, 0, m, {}, drafts) {
      var k :| 0 <= k < m && Asked(ds, refs, amount, k, m);
    }
    if k, j :| 0 <= k < j < |refs| && (drafts ==> ds[refs[j].parent].status.Draft?) && Asked(ds, refs, amount, k, j) {
      assert Meets(ds, refs, amount, 0, j, {}, drafts);
    }
  }

  // ---------------------------------------------------------------- the query names every place once

  function OtherPlaces(): (Ref, Ref) -> bool { (a: Ref, b: Ref) => OtherPlace(a, b) }

  lemma {:induction false} LineRefsPlaces(lines: seq<Line>, parent: nat, id: string)
    ensures Pairwise(LineRefs(lines, parent, id), OtherPlaces())
  {
    if |lines| != 0 {
      var n := |lines| - 1;
      LineRefsPlaces(lines[..n], parent, id);
      LineRefsPoint(lines[..n], parent, id);
      var before := LineRefs(lines[..n], parent, id);
      assert forall k :: 0 <= k < |before| ==> before[k] in before;
    }
  }

  lemma {:induction false} RefsPlaces(ds: seq<Delivery>, id: string)
    ensures Pairwise(Refs(ds, id), OtherPlaces())
  {
    if |ds| != 0 {
      var n := |ds| - 1;
      var before, here := Refs(ds[..n], id), LineRefs(ds[n].lines, n, id);
      RefsPlaces(ds[..n], id);
      RefsPoint(ds[..n], id);
      LineRefsPlaces(ds[n].lines, n, id);
      LineRefsPoint(ds[n].lines, n, id);
      assert forall k :: 0 <= k < |before| ==> Points(ds[..n], before[k]);
      assert forall k :: 0 <= k < |here| ==> here[k] in here;
    }
  }

  lemma SortedPlaces(ds: seq<Delivery>, names: Naming, id: string)
    ensures Places(NewestLines(ds, names, id))
  {
    var refs := NewestLines(ds, names, id);
    RefsPlaces(ds, id);
    SortPairwise(Refs(ds, id), AsListed(names), OtherPlaces());
    SortPairwise(OpenLines(ds, names, id), NewestFirst(names), OtherPlaces());
    forall j, k | 0 <= j < k < |refs| ensures OtherPlace(refs[j], refs[k]) { assert OtherPlaces()(refs[j], refs[k]); }
  }

  lemma SortedArePlaced(ds: seq<Delivery>, names: Naming, id: string)
    requires Sane(ds)
    ensures var refs := NewestLines(ds, names, id);
        AllPoint(ds, refs) && Places(refs) && Placed(ds, ds, refs, 0, {}, id)
    ensures SumFrom(NewestLines(ds, names, id), 0) == FreeOnWms(ds, id)
  {
    var refs := NewestLines(ds, names, id);
    OpenLinesPoint(ds, names, id);
    SortedPlaces(ds, names, id);
    forall m | 0 <= m < |refs| ensures PlacedAt(ds, ds, refs[m], {}, id) {
      assert Current(ds, refs[m], id);
      assert ProperLine(ds[refs[m].parent].lines[refs[m].pos]);
    }
    NewestLinesMeasure(ds, names, id);
  }

  lemma CutOutcome(ds: seq<Delivery>, found: FollowUp, refs: seq<Ref>, cut: real, id: string)
    requires AllPoint(ds, refs) && Places(refs) && Placed(ds, ds, refs, 0, {}, id) && cut >= 0.0
    ensures Reduce(ds, found, refs, 0, cut).None? <==> Clash(ds, refs, cut, true)
    ensures var after := Reduce(ds, found, refs, 0, cut); after.Some? ==>
      after.value.1 == Lacking(refs, 0, cut) &&
          (OnWms(after.value.0, id) == OnWms(ds, id) - (cut - after.value.1) <==> !Clash(ds, refs, cut, false))
    ensures Clash(ds, refs, cut, true) ==> Clash(ds, refs, cut, false)
  {
    Outcome(ds, ds, found, refs, 0, cut, {}, id);
    TroubledIsClash(ds, refs, true, cut);
    TroubledIsClash(ds, refs, false, cut);
  }

  /** A cut order line is followed if and only if that much is free and no delivery is asked again after one of its
      lines was emptied; it is refused if and only if too little is free or such a delivery is a draft. */
  lemma CutIsFollowedExactly(ds: seq<Delivery>, names: Naming, found: FollowUp, row: OrderLine)
    requires Sane(ds) && Wanted(row) < OnWms(ds, row.id) && LinesOnWms(ds, row.id) > 0.0
    ensures AllPoint(ds, NewestLines(ds, names, row.id))
    ensures var refs := NewestLines(ds, names, row.id); var cut := OnWms(ds, row.id) - Wanted(row);
      var next := UpdateRow(ds, names, found, false, row);
      (next.None? <==> cut > FreeOnWms(ds, row.id) || Clash(ds, refs, cut, true))
      && (next.Some? && OnWms(next.value, row.id) == Wanted(row) <==>
          cut <= FreeOnWms(ds, row.id) && !Clash(ds, refs, cut, false))
  {
    var refs, cut := NewestLines(ds, names, row.id), OnWms(ds, row.id) - Wanted(row);
    SortedArePlaced(ds, names, row.id);
    CutOutcome(ds, found, refs, cut, row.id);
    RowFollows(ds, names, found, false, row);
  }
}
