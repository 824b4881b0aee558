/** Which states let the refusal of an order change be told beforehand, although releases allocate stock on the way. */
module OrderFollowUp {
  import opened Basics
  import opened Sums
  import opened Sorting
  import opened OrderUpdate
  import opened OrderTotals
  import opened OrderRows
  import opened OrderRuns
  import opened OrderUpdateProofs

  /** A started delivery carries the order line. */
  ghost predicate InExecution(ds: seq<Delivery>, order: string, id: string) {
    exists d: Delivery, l: Line :: d in ds && IsOpen(d) && Started(d) && l in d.lines && l.order == order &&
        l.orderLine == id
  }

  /** The delivery is replaced when line `p` is taken away, and order line `q` goes along. */
  predicate Replaceable(d: Delivery, p: nat, q: nat) {
    && p < |d.lines| && q < |d.lines|
    && IsOpen(d) && !Started(d) && d.mode.Allocates?
    && Emptiable(d.lines[p]) && d.lines[p].orderLine != ""
    && d.lines[q].orderLine != "" && d.lines[q].orderLine != d.lines[p].orderLine
  }

  /** Then something can be allocated to it: what is free on a line, or what another order line grows by before. */
  predicate CanStart(d: Delivery, p: nat, q: nat) {
    exists x :: 0 <= x < |d.lines| && x != p && (FreeQty(d.lines[x]) > 0.0 || (x != q && d.lines[x].orderLine != ""))
  }

  /** The allocation can take what is free of order line `q`, or put it under execution when it is removed. */
  ghost predicate Vulnerable(ds: seq<Delivery>, d: Delivery, p: nat, q: nat) {
    && Replaceable(d, p, q)
    && (FreeQty(d.lines[q]) > 0.0 || (CanStart(d, p, q) && !InExecution(ds, d.lines[q].order, d.lines[q].orderLine)))
  }

  ghost predicate Foreseeable(ds: seq<Delivery>) {
    forall d: Delivery, p: nat, q: nat :: d in ds ==> !Vulnerable(ds, d, p, q)
  }

  // ---------------------------------------------------------------- enough

  lemma InExecutionIsStuck(ds: seq<Delivery>, order: Order, l: Line)
    requires Gone(order, l)
    ensures InExecution(ds, l.order, l.orderLine) ==> exists e <- ds :: IsStuck(order, e)
  {
    if InExecution(ds, l.order, l.orderLine) {
      var e: Delivery, m: Line :| e in ds && IsOpen(e) && Started(e) && m in e.lines && m.order == l.order &&
          m.orderLine == l.orderLine;
      var y :| 0 <= y < |e.lines| && e.lines[y] == m;
      assert Gone(order, e.lines[y]);
      assert IsStuck(order, e);
    }
  }

  lemma HarmIsVulnerable(ds: seq<Delivery>, order: Order, d: Delivery, p: nat, x: nat)
    requires Proper(ds) && DistinctGroups(order.groups) && d in ds && IsOpen(d) && !Started(d) && d.mode.Allocates?
    requires p < |d.lines| && x < |d.lines| && p != x && Emptiable(d.lines[p]) && Listed(order, d.lines[p].orderLine)
    requires Harms(d, p, x, ScopeOf(ds, order)) && forall e <- ds :: !IsStuck(order, e)
    ensures !Foreseeable(ds)
  {
    var S := ScopeOf(ds, order);
    ListedHasName(order, d.lines[p].orderLine);
    ListedAreInOrder(order, d.lines[p].orderLine);
    assert ProperLines(d.lines);
    if Listed(order, d.lines[x].orderLine) && FreeQty(d.lines[x]) > 0.0 {
      ListedHasName(order, d.lines[x].orderLine);
      assert Vulnerable(ds, d, p, x);
    } else {
      var y :| 0 <= y < |d.lines| && y != p && IsKept(S, d.lines[y]);
      assert Gone(order, d.lines[y]);
      if Raised(ds, order, d.lines[x].orderLine) {
        RaisedIsListed(ds, order, d.lines[x].orderLine);
        ListedHasName(order, d.lines[x].orderLine);
        ListedAreInOrder(order, d.lines[x].orderLine);
      }
      assert CanStart(d, p, y);
      InExecutionIsStuck(ds, order, d.lines[y]);
      assert Vulnerable(ds, d, p, y);
    }
  }

  lemma RaisedIsListed(ds: seq<Delivery>, order: Order, id: string)
    requires Raised(ds, order, id)
    ensures Listed(order, id)
  {
    var g, k :| 0 <= g < |order.groups| && 0 <= k < |order.groups[g].rows| && order.groups[g].rows[k].id == id &&
        Wanted(order.groups[g].rows[k]) > OnWms(ds, id);
    assert Among(order.groups[g].rows, id);
  }

  lemma ListedHasName(order: Order, id: string)
    requires DistinctGroups(order.groups) && Listed(order, id)
    ensures id != ""
  {
    var g :| 0 <= g < |order.groups| && Among(order.groups[g].rows, id);
    assert Distinct(order.groups[g].rows);
  }

  lemma ForeseeableIsSafe(ds: seq<Delivery>, order: Order)
    requires Proper(ds) && DistinctGroups(order.groups) && Foreseeable(ds) && Acceptable(ds, order)
    ensures Safe(ds, ScopeOf(ds, order))
  {
    var S := ScopeOf(ds, order);
    forall d | d in ds && IsOpen(d) && !Started(d) && d.mode.Allocates? ensures SafeDelivery(d, S) {
      forall p: nat, x: nat | p < |d.lines| && x < |d.lines| && p != x && Emptiable(d.lines[p]) &&
          d.lines[p].orderLine in S.todo
        ensures !Harms(d, p, x, S)
      {
        if Harms(d, p, x, S) { HarmIsVulnerable(ds, order, d, p, x); }
      }
    }
  }

  lemma ForeseeableIsEnough(ds: seq<Delivery>, names: Naming, found: FollowUp, order: Order)
    requires Proper(ds) && DistinctGroups(order.groups) && Foreseeable(ds)
    ensures Update(ds, names, found, order).None? <==> !Acceptable(ds, order)
  {
    if Acceptable(ds, order) {
      ForeseeableIsSafe(ds, order);
      CalmIsFollowed(ds, names, found, order);
    }
    if Update(ds, names, found, order).Some? { FollowedIsAcceptable(ds, names, found, order); }
  }

  // ---------------------------------------------------------------- necessary

  /** Every release finds one unit for every line. */
  function FindsOne(): FollowUp { (i: nat, p: nat) => 1.0 }

  lemma {:induction false} LinesLighter(w: Weight, kept: seq<Line>, lines: seq<Line>, started: bool, k: nat)
    requires |lines| == |kept| && k < |kept|
    requires forall p :: 0 <= p < |kept| ==> w(started, lines[p]) <= w(false, kept[p])
    requires w(started, lines[k]) < w(false, kept[k])
    ensures Sum(lines, LineWorth(w, started)) < Sum(kept, LineWorth(w, false))
  {
    var n := |kept| - 1;
    assert LineWorth(w, started)(lines[n]) <= LineWorth(w, false)(kept[n]);
    if k < n {
      LinesLighter(w, kept[..n], lines[..n], started, k);
    } else {
      assert forall p :: 0 <= p < n ==> NoMore(w(false, kept[..n][p]), w(started, lines[..n][p]), false);
      LinesNoHeavier(w, kept[..n], lines[..n], started, false);
    }
  }

  /** Some line of the delivery weighs less after it is replaced. */
  ghost predicate Lightens(w: Weight, d: Delivery, p: nat, i: nat, k: nat)
    requires p < |d.lines|
  {
    var kept, renewed := Without(d.lines, p), NewDelivery(Without(d.lines, p), d.mode, i, FindsOne());
    |renewed.lines| == |kept| && k < |kept| && w(Started(renewed), renewed.lines[k]) < w(false, kept[k])
  }

  lemma RebuildLightens(ds: seq<Delivery>, i: nat, p: nat, w: Weight, k: nat)
    requires i < |ds| && p < |ds[i].lines| && IsOpen(ds[i]) && !Started(ds[i]) && ProperLines(ds[i].lines)
    requires Steady(w, false)
    requires Lightens(w, ds[i], p, |ds|, k) && w(false, ds[i].lines[p]) >= 0.0
    ensures Total(Rebuild(ds, i, Without(ds[i].lines, p), FindsOne()), w) < Total(ds, w)
  {
    var d, kept := ds[i], Without(ds[i].lines, p);
    var renewed, withdrawn := NewDelivery(kept, d.mode, |ds|, FindsOne()), d.(status := Withdrawn(d.status));
    WithoutIsProper(d.lines, p);
    WithoutTotal(d.lines, p, LineWorth(w, false));
    SteadyIsNoHeavier(kept, d.mode, |ds|, FindsOne(), w, false);
    LinesLighter(w, kept, renewed.lines, Started(renewed), k);
    SumUpdate(ds, i, withdrawn, WorthOf(w));
    SumConcat(ds[i := withdrawn], [renewed], WorthOf(w));
    assert [renewed][..0] == [];
  }

  /** Whichever index the delivery that replaces it gets. */
  ghost predicate AlwaysLightens(w: Weight, d: Delivery, p: nat, k: nat)
    requires p < |d.lines|
  {
    forall i: nat :: Lightens(w, d, p, i, k)
  }

  /** All that is free is taken off; before its turn the delivery is as it was, after it the weight has fallen. */
  ghost predicate Disturbs(ds: seq<Delivery>, j: nat, left: real, total: real, refs: seq<Ref>, m: nat, id: string,
        d: Delivery, w: Weight)
  {
    && j <= |refs| && m < |refs| && Ready(ds, refs, j, id) && left == SumFrom(refs, j)
    && (j <= m ==> Points(ds, refs[m]) && ds[refs[m].parent] == d && Total(ds, w) <= total)
    && (j > m ==> Total(ds, w) < total)
  }

  lemma TakesAll(refs: seq<Ref>, j: nat)
    requires j < |refs|
    ensures SumFrom(refs, j) - Taken(refs[j], SumFrom(refs, j)) == SumFrom(refs, j + 1)
    ensures FreeQty(refs[j].line) > 0.0 ==> Taken(refs[j], SumFrom(refs, j)) == FreeQty(refs[j].line)
  {
    SumFromNonNegative(refs, j + 1);
  }

  lemma DisturbedAtTurn(ds: seq<Delivery>, r: Ref, amount: real, id: string, d: Delivery, w: Weight, k: nat)
    requires Proper(ds) && Current(ds, r, id) && ds[r.parent] == d && !Started(d) && Emptiable(r.line)
    requires Taken(r, amount) == FreeQty(r.line) && Steady(w, false) && AlwaysLightens(w, d, r.pos, k)
    requires w(false, r.line) >= 0.0
    ensures TakeFrom(ds, FindsOne(), r, amount).Some?
    ensures Total(TakeFrom(ds, FindsOne(), r, amount).value, w) < Total(ds, w)
  {
    NoneStarted(d);
    assert ProperLine(d.lines[r.pos]) && !LineStarted(d.lines[r.pos]);
    assert Lightens(w, d, r.pos, |ds|, k);
    RebuildLightens(ds, r.parent, r.pos, w, k);
  }

  lemma DisturbTurn(ds: seq<Delivery>, j: nat, left: real, total: real, refs: seq<Ref>, m: nat, id: string, d: Delivery,
        w: Weight, k: nat)
    requires Harmless(w, id, false) && Steady(w, false)
    requires m < |refs| && refs[m].pos < |d.lines| && !Started(d) && Emptiable(refs[m].line)
    requires AlwaysLightens(w, d, refs[m].pos, k) && w(false, refs[m].line) >= 0.0
    requires j < |refs| && Disturbs(ds, j, left, total, refs, m, id, d, w)
    ensures TakeFrom(ds, FindsOne(), refs[j], left).Some?
    ensures Disturbs(TakeFrom(ds, FindsOne(), refs[j], left).value, j + 1, left - Taken(refs[j], left), total, refs, m,
        id, d, w)
  {
    TakeIsReady(ds, FindsOne(), refs, j, left, id);
    TakesAll(refs, j);
    TakeTotal(ds, FindsOne(), refs[j], left, id, w, false, false, Alone(id), iset{});
    if j == m {
      NoneStarted(d);
      assert ProperLine(d.lines[refs[m].pos]) && !LineStarted(d.lines[refs[m].pos]);
      DisturbedAtTurn(ds, refs[m], left, id, d, w, k);
    } else if j < m {
      assert refs[j].parent != refs[m].parent;
    }
  }

  ghost function Disturbing(total: real, refs: seq<Ref>, m: nat, id: string, d: Delivery, w: Weight): Invariant {
    (ds: seq<Delivery>, j: nat, left: real) => Disturbs(ds, j, left, total, refs, m, id, d, w)
  }

  lemma ReduceDisturbs(ds: seq<Delivery>, refs: seq<Ref>, m: nat, id: string, w: Weight, k: nat)
    requires Ready(ds, refs, 0, id) && m < |refs| && Harmless(w, id, false) && Steady(w, false)
    requires var d := ds[refs[m].parent];
        !Started(d) && Emptiable(refs[m].line) && AlwaysLightens(w, d, refs[m].pos, k) && w(false, refs[m].line) >= 0.0
    ensures Reduce(ds, FindsOne(), refs, 0, SumFrom(refs, 0)).Some?
    ensures Total(Reduce(ds, FindsOne(), refs, 0, SumFrom(refs, 0)).value.0, w) < Total(ds, w)
  {
    var d, total := ds[refs[m].parent], Total(ds, w);
    var inv := Disturbing(total, refs, m, id, d, w);
    forall x: seq<Delivery>, j: nat, left: real ensures TurnKeeps(FindsOne(), refs, inv, x, j, left) {
      if j < |refs| && Disturbs(x, j, left, total, refs, m, id, d, w) {
        DisturbTurn(x, j, left, total, refs, m, id, d, w, k);
      }
    }
    assert Disturbs(ds, 0, SumFrom(refs, 0), total, refs, m, id, d, w);
    ReduceKeeps(ds, FindsOne(), refs, 0, SumFrom(refs, 0), inv);
  }

  lemma {:induction false} LineRefsHave(lines: seq<Line>, parent: nat, p: nat)
    requires p < |lines|
    ensures Ref(parent, p, lines[p]) in LineRefs(lines, parent, lines[p].orderLine)
  {
    if p < |lines| - 1 { LineRefsHave(lines[..|lines| - 1], parent, p); }
  }

  lemma {:induction false} RefsHave(ds: seq<Delivery>, i: nat, p: nat)
    requires i < |ds| && IsOpen(ds[i]) && p < |ds[i].lines|
    ensures Ref(i, p, ds[i].lines[p]) in Refs(ds, ds[i].lines[p].orderLine)
  {
    if i == |ds| - 1 { LineRefsHave(ds[i].lines, i, p); } else { RefsHave(ds[..|ds| - 1], i, p); }
  }

  /** All that is free of an order line is cut. */
  function CutAll(ds: seq<Delivery>, id: string): OrderLine { OrderLine(id, OnWms(ds, id) - FreeOnWms(ds, id), 0.0) }

  lemma CutIsAccepted(ds: seq<Delivery>, id: string)
    ensures Accepts(ViewOf(ds, id), false, CutAll(ds, id)) && Wanted(CutAll(ds, id)) <= OnWms(ds, id)
  {
    RefsMeasures(ds, id);
    FreeIsNotNegative(Refs(ds, id));
  }

  lemma SortedRefsHave(ds: seq<Delivery>, names: Naming, i: nat, p: nat) returns (m: nat)
    requires i < |ds| && IsOpen(ds[i]) && p < |ds[i].lines|
    ensures var sorted := NewestLines(ds, names, ds[i].lines[p].orderLine);
        m < |sorted| && sorted[m] == Ref(i, p, ds[i].lines[p])
  {
    var id := ds[i].lines[p].orderLine;
    RefsHave(ds, i, p);
    SortPermutes(Refs(ds, id), AsListed(names));
    SortPermutes(OpenLines(ds, names, id), NewestFirst(names));
    assert Ref(i, p, ds[i].lines[p]) in multiset(NewestLines(ds, names, id));
    m :| 0 <= m < |NewestLines(ds, names, id)| && NewestLines(ds, names, id)[m] == Ref(i, p, ds[i].lines[p]);
  }

  lemma {:induction false} SumFromAtLeast(refs: seq<Ref>, j: nat, m: nat)
    requires j <= m < |refs|
    ensures SumFrom(refs, j) >= FreeQty(refs[m].line)
    decreases m - j
  {
    SumFromNonNegative(refs, j + 1);
    if j < m { SumFromAtLeast(refs, j + 1, m); }
  }

  lemma NoLinesNothingFree(ds: seq<Delivery>, id: string)
    ensures LinesOnWms(ds, id) == 0.0 ==> FreeOnWms(ds, id) == 0.0
  {
    RefsMeasures(ds, id);
  }

  lemma CutReduces(ds: seq<Delivery>, names: Naming, id: string)
    requires FreeOnWms(ds, id) > 0.0
    ensures AllPoint(ds, NewestLines(ds, names, id))
    ensures var reduced := Reduce(ds, FindsOne(), NewestLines(ds, names, id), 0, FreeOnWms(ds, id));
      reduced.Some? && reduced.value.1 <= 0.0 ==>
          UpdateRow(ds, names, FindsOne(), false, CutAll(ds, id)) == Some(reduced.value.0)
  {
    OpenLinesMeasure(ds, names, id);
    OpenLinesPoint(ds, names, id);
    NoLinesNothingFree(ds, id);
  }

  lemma CutDisturbs(ds: seq<Delivery>, names: Naming, i: nat, p: nat, w: Weight, k: nat)
    requires Proper(ds) && i < |ds| && IsOpen(ds[i]) && !Started(ds[i]) && p < |ds[i].lines|
    requires Emptiable(ds[i].lines[p]) && ds[i].lines[p].orderLine != ""
    requires Harmless(w, ds[i].lines[p].orderLine, false) && Steady(w, false)
    requires AlwaysLightens(w, ds[i], p, k) && w(false, ds[i].lines[p]) >= 0.0
    ensures var id := ds[i].lines[p].orderLine; AllPoint(ds, NewestLines(ds, names, id)) && FreeOnWms(ds, id) > 0.0
    ensures var id := ds[i].lines[p].orderLine;
      var reduced := Reduce(ds, FindsOne(), NewestLines(ds, names, id), 0, FreeOnWms(ds, id));
      reduced.Some? && Total(reduced.value.0, w) < Total(ds, w)
  {
    var id := ds[i].lines[p].orderLine;
    var m := SortedRefsHave(ds, names, i, p);
    NewestLinesReady(ds, names, id);
    FreeOfEmptiable(ds[i], p);
    SumFromAtLeast(NewestLines(ds, names, id), 0, m);
    ReduceDisturbs(ds, NewestLines(ds, names, id), m, id, w, k);
  }

  lemma FreeOfEmptiable(d: Delivery, p: nat)
    requires !Started(d) && p < |d.lines| && Emptiable(d.lines[p])
    ensures FreeQty(d.lines[p]) > 0.0
  {
    NoneStarted(d);
    assert !LineStarted(d.lines[p]);
  }

  lemma RowDisturbs(ds: seq<Delivery>, names: Naming, i: nat, p: nat, w: Weight, k: nat)
    requires Proper(ds) && i < |ds| && IsOpen(ds[i]) && !Started(ds[i]) && p < |ds[i].lines|
    requires Emptiable(ds[i].lines[p]) && ds[i].lines[p].orderLine != ""
    requires Harmless(w, ds[i].lines[p].orderLine, false) && Steady(w, false)
    requires AlwaysLightens(w, ds[i], p, k) && w(false, ds[i].lines[p]) >= 0.0
    ensures var next := UpdateRow(ds, names, FindsOne(), false, CutAll(ds, ds[i].lines[p].orderLine));
      next.Some? && Total(next.value, w) < Total(ds, w)
  {
    var id := ds[i].lines[p].orderLine;
    CutDisturbs(ds, names, i, p, w, k);
    NothingIsLeft(ds, names, id);
    CutReduces(ds, names, id);
  }

  lemma NothingIsLeft(ds: seq<Delivery>, names: Naming, id: string)
    requires Proper(ds) && id != "" && FreeOnWms(ds, id) > 0.0
    ensures AllPoint(ds, NewestLines(ds, names, id))
    ensures var reduced := Reduce(ds, FindsOne(), NewestLines(ds, names, id), 0, FreeOnWms(ds, id));
      reduced.Some? && reduced.value.1 <= 0.0
  {
    NewestLinesReady(ds, names, id);
    ReduceRuns(ds, FindsOne(), NewestLines(ds, names, id), FreeOnWms(ds, id), id);
  }

  /** Where line `q` stands once line `p` is taken away. */
  function Shifted(p: nat, q: nat): nat
    requires p != q
  {
    if q < p then q else q - 1
  }

  lemma StillThere(d: Delivery, p: nat, q: nat)
    requires p < |d.lines| && q < |d.lines| && p != q && !Started(d) && ProperLines(d.lines)
    ensures Shifted(p, q) < |Without(d.lines, p)| && Without(d.lines, p)[Shifted(p, q)] == d.lines[q]
    ensures FreeQty(d.lines[q]) == Max(d.lines[q].qty - d.lines[q].allocatedQty, 0.0)
  {
    WithoutAt(d.lines, p, Shifted(p, q));
    NoneStarted(d);
    assert ProperLine(d.lines[q]) && !LineStarted(d.lines[q]);
  }

  lemma FreeLightens(d: Delivery, p: nat, q: nat)
    requires p < |d.lines| && q < |d.lines| && p != q && !Started(d) && d.mode.Allocates? && ProperLines(d.lines)
    requires FreeQty(d.lines[q]) > 0.0
    ensures AlwaysLightens(OnLine(d.lines[q].orderLine, FreePart()), d, p, Shifted(p, q))
  {
    var kept, k := Without(d.lines, p), Shifted(p, q);
    StillThere(d, p, q);
    forall i: nat ensures Lightens(OnLine(d.lines[q].orderLine, FreePart()), d, p, i, k) {
      assert NewDelivery(kept, d.mode, i, FindsOne()).lines[k] == Allotted(kept[k], 1.0);
    }
  }

  /** What an allocation takes for one line puts the whole delivery under execution. */
  lemma AllottedStarts(kept: seq<Line>, i: nat, k: nat)
    requires k < |kept| && kept[k].qty > kept[k].allocatedQty
    ensures NewDelivery(kept, Allocates, i, FindsOne()).executing
  {
    assert NewDelivery(kept, Allocates, i, FindsOne()).lines[k] == Allotted(kept[k], 1.0);
    assert Allotted(kept[k], 1.0).allocatedQty > kept[k].allocatedQty;
  }

  lemma StuckLightens(d: Delivery, p: nat, q: nat, x: nat, order: Order)
    requires p < |d.lines| && q < |d.lines| && p != q && x < |d.lines| && x != p && !Started(d) && d.mode.Allocates?
    requires ProperLines(d.lines)
    requires FreeQty(d.lines[x]) > 0.0 && Gone(order, d.lines[q])
    ensures AlwaysLightens(Stuck(order), d, p, Shifted(p, q))
  {
    StillThere(d, p, q);
    StillThere(d, p, x);
    forall i: nat ensures Lightens(Stuck(order), d, p, i, Shifted(p, q)) {
      AllottedStarts(Without(d.lines, p), i, Shifted(p, x));
      var t := RenewedAt(Without(d.lines, p), d.mode, i, FindsOne(), Shifted(p, q));
    }
  }

  // ---------------------------------------------------------------- orders that are refused unforeseen

  function AllIds(ds: seq<Delivery>): set<string> { set d: Delivery, l: Line | d in ds && l in d.lines :: l.orderLine }

  /** Both lines are cut as far as they are free, and nothing is removed. */
  function CutBoth(ds: seq<Delivery>, a: string, b: string): Order {
    Order("", [Group(false, false, Drafts, [CutAll(ds, a), CutAll(ds, b)])], AllIds(ds))
  }

  /** One line is cut as far as it is free, and one is removed. */
  function CutAndRemove(ds: seq<Delivery>, a: string, l: Line): Order {
    Order(l.order, [Group(false, false, Drafts, [CutAll(ds, a)])], AllIds(ds) - {l.orderLine})
  }

  lemma CutBothIsPlain(ds: seq<Delivery>, a: string, b: string)
    requires a != "" && b != "" && a != b
    ensures DistinctGroups(CutBoth(ds, a, b).groups) && Acceptable(ds, CutBoth(ds, a, b))
  {
    var order := CutBoth(ds, a, b);
    forall d: Delivery, l: Line | d in ds && l in d.lines ensures !Gone(order, l) { assert l.orderLine in AllIds(ds); }
    CutIsAccepted(ds, a);
    CutIsAccepted(ds, b);
    forall d | d in ds ensures !IsStuck(order, d) {
      assert forall y :: 0 <= y < |d.lines| ==> d.lines[y] in d.lines;
    }
  }

  lemma FirstRow(ds: seq<Delivery>, names: Naming, found: FollowUp, order: Order, rows: seq<OrderLine>)
    requires order.groups == [Group(false, false, Drafts, rows)] && |rows| > 0
    ensures UpdateRow(ds, names, found, false, rows[0]).None? ==> Update(ds, names, found, order).None?
    ensures var next := UpdateRow(ds, names, found, false, rows[0]); next.Some? ==>
      UpdateGroups(ds, names, found, order.name, order.groups) == UpdateRows(next.value, names, found, false, rows[1..])
  {
    assert order.groups[1..] == [];
  }

  lemma CutBothIsRefused(ds: seq<Delivery>, names: Naming, i: nat, p: nat, q: nat)
    requires Proper(ds) && i < |ds| && Vulnerable(ds, ds[i], p, q) && FreeQty(ds[i].lines[q]) > 0.0
    ensures Update(ds, names, FindsOne(), CutBoth(ds, ds[i].lines[p].orderLine, ds[i].lines[q].orderLine)).None?
  {
    var a, b := ds[i].lines[p].orderLine, ds[i].lines[q].orderLine;
    var order, rows := CutBoth(ds, a, b), [CutAll(ds, a), CutAll(ds, b)];
    FreeLightens(ds[i], p, q);
    OthersAreIgnored(a, b);
    FreeIsSteady(b);
    assert HarmlessStep(OnLine(b, FreePart()), RowStep(false, CutAll(ds, a)), true);
    WeakerHarmless(OnLine(b, FreePart()), RowStep(false, CutAll(ds, a)));
    RowDisturbs(ds, names, i, p, OnLine(b, FreePart()), Shifted(p, q));
    var mid := UpdateRow(ds, names, FindsOne(), false, CutAll(ds, a)).value;
    StepLeavesOthers(ds, names, FindsOne(), order.name, RowStep(false, CutAll(ds, a)), b);
    RowUpdate(ds, names, FindsOne(), false, CutAll(ds, a));
    RowUpdate(mid, names, FindsOne(), false, CutAll(ds, b));
    CutBTooMuch(ds, mid, b);
    FirstRow(ds, names, FindsOne(), order, rows);
    assert rows[1..] == [CutAll(ds, b)];
  }

  lemma CutBTooMuch(ds: seq<Delivery>, mid: seq<Delivery>, b: string)
    requires OnWms(mid, b) == OnWms(ds, b) && LinesOnWms(mid, b) == LinesOnWms(ds, b)
    requires FreeOnWms(mid, b) < FreeOnWms(ds, b)
    ensures !Accepts(ViewOf(mid, b), false, CutAll(ds, b))
  {
    RefsMeasures(mid, b);
    FreeIsNotNegative(Refs(mid, b));
    NoLinesNothingFree(ds, b);
  }

  lemma OnlyThatLineIsGone(ds: seq<Delivery>, a: string, l: Line, d: Delivery, m: Line)
    requires d in ds && m in d.lines && a != "" && l.orderLine != "" && l.orderLine != a
    ensures Gone(CutAndRemove(ds, a, l), m) <==> m.order == l.order && m.orderLine == l.orderLine
  {
    var order := CutAndRemove(ds, a, l);
    assert m.orderLine in AllIds(ds);
    assert forall k :: 0 <= k < |order.groups[0].rows| ==> order.groups[0].rows[k].id == a;
  }

  lemma CutAndRemoveIsPlain(ds: seq<Delivery>, a: string, l: Line)
    requires a != "" && l.orderLine != "" && l.orderLine != a && !InExecution(ds, l.order, l.orderLine)
    ensures DistinctGroups(CutAndRemove(ds, a, l).groups) && Acceptable(ds, CutAndRemove(ds, a, l))
  {
    var order := CutAndRemove(ds, a, l);
    CutIsAccepted(ds, a);
    forall d | d in ds ensures !IsStuck(order, d) {
      forall y | 0 <= y < |d.lines| && IsOpen(d) && Started(d) ensures !Gone(order, d.lines[y]) {
        assert d.lines[y] in d.lines;
        OnlyThatLineIsGone(ds, a, l, d, d.lines[y]);
      }
    }
  }

  lemma CutAndRemoveIsRefused(ds: seq<Delivery>, names: Naming, i: nat, p: nat, q: nat, x: nat)
    requires Proper(ds) && i < |ds| && Replaceable(ds[i], p, q)
    requires x < |ds[i].lines| && x != p && FreeQty(ds[i].lines[x]) > 0.0
    ensures Update(ds, names, FindsOne(), CutAndRemove(ds, ds[i].lines[p].orderLine, ds[i].lines[q])).None?
  {
    var a, order := ds[i].lines[p].orderLine, CutAndRemove(ds, ds[i].lines[p].orderLine, ds[i].lines[q]);
    OnlyThatLineIsGone(ds, a, ds[i].lines[q], ds[i], ds[i].lines[q]);
    StuckLightens(ds[i], p, q, x, order);
    assert order.groups[0].rows[0].id == a;
    StuckIsIgnored(order, a);
    StuckIsSteady(order);
    RowDisturbs(ds, names, i, p, Stuck(order), Shifted(p, q));
    var mid := UpdateRow(ds, names, FindsOne(), false, CutAll(ds, a)).value;
    StuckTotal(ds, order);
    StuckTotal(mid, order);
    FirstRow(ds, names, FindsOne(), order, [CutAll(ds, a)]);
    assert [CutAll(ds, a)][1..] == [];
    DropSucceeds(mid, FindsOne(), order, 0, |mid|);
  }

  // ---------------------------------------------------------------- a line that grows first

  /** The query lists the lines of delivery `i` first. */
  function ListsFirst(i: nat): Naming { Naming((n: nat) => 0, (n: nat, p: nat) => if n == i then 0 else 1) }

  /** What makes one unit free on line `x`. */
  function RoomOn(l: Line): real { l.allocatedQty + 1.0 - l.qty }

  function Raise(ds: seq<Delivery>, l: Line): OrderLine {
    OrderLine(l.orderLine, OnWms(ds, l.orderLine) + RoomOn(l), 0.0)
  }

  function WithRoom(ds: seq<Delivery>, i: nat, x: nat): seq<Delivery>
    requires i < |ds| && x < |ds[i].lines|
  {
    SetQty(ds, i, x, ds[i].lines[x].allocatedQty + 1.0)
  }

  lemma ListedFirst(ds: seq<Delivery>, i: nat, x: nat)
    requires Proper(ds) && i < |ds| && IsOpen(ds[i]) && x < |ds[i].lines| && ds[i].lines[x].orderLine != ""
    ensures var refs := OpenLines(ds, ListsFirst(i), ds[i].lines[x].orderLine);
        |refs| > 0 && refs[0] == Ref(i, x, ds[i].lines[x])
  {
    var id, names, r := ds[i].lines[x].orderLine, ListsFirst(i), Ref(i, x, ds[i].lines[x]);
    var refs, le := OpenLines(ds, names, id), AsListed(names);
    RefsHave(ds, i, x);
    SortPermutes(Refs(ds, id), le);
    assert r in multiset(refs);
    SortSorts(Refs(ds, id), le);
    var j :| 0 <= j < |refs| && refs[j] == r;
    assert j > 0 ==> le(refs[0], refs[j]);
    OpenLinesPoint(ds, names, id);
    assert Current(ds, refs[0], id) && ProperLines(ds[i].lines);
  }

  lemma RaiseGrows(ds: seq<Delivery>, i: nat, x: nat)
    requires Proper(ds) && i < |ds| && IsOpen(ds[i]) && !Started(ds[i]) && x < |ds[i].lines|
    requires ds[i].lines[x].orderLine != ""
    requires RoomOn(ds[i].lines[x]) > 0.0
    ensures UpdateRow(ds, ListsFirst(i), FindsOne(), false, Raise(ds, ds[i].lines[x])) == Some(WithRoom(ds, i, x))
  {
    var id, names := ds[i].lines[x].orderLine, ListsFirst(i);
    ListedFirst(ds, i, x);
    OpenLinesPoint(ds, names, id);
    OpenLinesMeasure(ds, names, id);
    assert Grow(ds, OpenLines(ds, names, id), 0, RoomOn(ds[i].lines[x])) == WithRoom(ds, i, x);
  }

  /** The line has one unit free then, and the other lines and what weighs them are as before. */
  lemma RoomIsFree(ds: seq<Delivery>, i: nat, x: nat)
    requires Proper(ds) && i < |ds| && IsOpen(ds[i]) && !Started(ds[i]) && x < |ds[i].lines|
    ensures Proper(WithRoom(ds, i, x)) && IsOpen(WithRoom(ds, i, x)[i]) && !Started(WithRoom(ds, i, x)[i])
    ensures FreeQty(WithRoom(ds, i, x)[i].lines[x]) > 0.0
  {
    var l := ds[i].lines[x];
    NoneStarted(ds[i]);
    assert ProperLine(l) && !LineStarted(l);
    StartedIgnoresQty(ds[i].lines, x, l.allocatedQty + 1.0);
    SetQtyIsProper(ds, i, x, l.allocatedQty + 1.0);
  }

  ghost predicate IgnoresQty(w: Weight, l: Line) { forall s: bool, q: real :: w(s, l.(qty := q)) == w(s, l) }

  lemma OtherTotalsStay(ds: seq<Delivery>, i: nat, x: nat, w: Weight)
    requires i < |ds| && IsOpen(ds[i]) && x < |ds[i].lines|
    requires IgnoresQty(w, ds[i].lines[x])
    ensures Total(WithRoom(ds, i, x), w) == Total(ds, w)
  {
    SetQtyTotal(ds, i, x, ds[i].lines[x].allocatedQty + 1.0, w);
  }

  /** Line `x` grows by a unit, then line `p` is cut to nothing, and the delivery replaced. */
  lemma RaiseThenCut(ds: seq<Delivery>, i: nat, p: nat, x: nat, w: Weight, k: nat) returns (after: seq<Delivery>)
    requires Proper(ds) && i < |ds| && IsOpen(ds[i]) && !Started(ds[i]) && p < |ds[i].lines| && x < |ds[i].lines|
    requires p != x
    requires Emptiable(ds[i].lines[p]) && ds[i].lines[p].orderLine != "" && ds[i].lines[x].orderLine != ""
    requires RoomOn(ds[i].lines[x]) > 0.0
    requires Harmless(w, ds[i].lines[p].orderLine, false) && Steady(w, false) && w(false, ds[i].lines[p]) >= 0.0
    requires AlwaysLightens(w, WithRoom(ds, i, x)[i], p, k)
    requires IgnoresQty(w, ds[i].lines[x])
    ensures var a := ds[i].lines[p].orderLine;
      UpdateRows(ds, ListsFirst(i), FindsOne(), false, [Raise(ds, ds[i].lines[x]), CutAll(ds, a)]) == Some(after)
    ensures Total(after, w) < Total(ds, w)
  {
    var a, mid := ds[i].lines[p].orderLine, WithRoom(ds, i, x);
    RaiseGrows(ds, i, x);
    RoomIsFree(ds, i, x);
    OtherTotalsStay(ds, i, x, w);
    CutStays(ds, i, p, x);
    RowDisturbs(mid, ListsFirst(i), i, p, w, k);
    after := UpdateRow(mid, ListsFirst(i), FindsOne(), false, CutAll(mid, a)).value;
    TwoRows(ds, mid, ListsFirst(i), Raise(ds, ds[i].lines[x]), CutAll(ds, a));
  }

  /** Another line's growth does not change how far a line can be cut. */
  lemma CutStays(ds: seq<Delivery>, i: nat, p: nat, x: nat)
    requires Proper(ds) && i < |ds| && IsOpen(ds[i]) && p < |ds[i].lines| && x < |ds[i].lines| && p != x
    requires ds[i].lines[p].orderLine != ""
    ensures CutAll(WithRoom(ds, i, x), ds[i].lines[p].orderLine) == CutAll(ds, ds[i].lines[p].orderLine)
    ensures |WithRoom(ds, i, x)[i].lines| == |ds[i].lines| && WithRoom(ds, i, x)[i].lines[p] == ds[i].lines[p]
  {
    var a := ds[i].lines[p].orderLine;
    assert ProperLines(ds[i].lines);
    assert ds[i].lines[x].orderLine != a;
    OtherTotalsStay(ds, i, x, OnLine(a, OpenPart()));
    OtherTotalsStay(ds, i, x, OnLine(a, FreePart()));
  }

  lemma TwoRows(ds: seq<Delivery>, mid: seq<Delivery>, names: Naming, first: OrderLine, second: OrderLine)
    requires UpdateRow(ds, names, FindsOne(), false, first) == Some(mid)
    ensures UpdateRows(ds, names, FindsOne(), false, [first, second]) ==
        UpdateRow(mid, names, FindsOne(), false, second)
  {
    var rows := [first, second];
    assert rows[1..] == [second] && [second][1..] == [];
    assert UpdateRows(mid, names, FindsOne(), false, [second]) == UpdateRow(mid, names, FindsOne(), false, second);
  }

  /** One line grows, one is cut as far as it is free, and one is removed. */
  function RaiseCutAndRemove(ds: seq<Delivery>, c: Line, a: string, l: Line): Order {
    Order(l.order, [Group(false, false, Drafts, [Raise(ds, c), CutAll(ds, a)])], AllIds(ds) - {l.orderLine})
  }

  lemma OnlyTheRemovedIsGone(ds: seq<Delivery>, c: Line, a: string, l: Line, d: Delivery, m: Line)
    requires d in ds && m in d.lines && a != "" && l.orderLine != "" && l.orderLine != a && l.orderLine != c.orderLine
    ensures Gone(RaiseCutAndRemove(ds, c, a, l), m) <==> m.order == l.order && m.orderLine == l.orderLine
  {
    var order := RaiseCutAndRemove(ds, c, a, l);
    assert m.orderLine in AllIds(ds);
    assert order.groups[0].rows[0].id == c.orderLine && order.groups[0].rows[1].id == a;
    assert forall k :: 0 <= k < |order.groups[0].rows| ==> order.groups[0].rows[k].id != l.orderLine;
  }

  lemma RaiseCutAndRemoveIsPlain(ds: seq<Delivery>, c: Line, a: string, l: Line)
    requires a != "" && l.orderLine != "" && l.orderLine != a && !InExecution(ds, l.order, l.orderLine)
    requires c.orderLine != "" && c.orderLine != a && c.orderLine != l.orderLine && RoomOn(c) > 0.0
    ensures DistinctGroups(RaiseCutAndRemove(ds, c, a, l).groups) && Acceptable(ds, RaiseCutAndRemove(ds, c, a, l))
  {
    var order := RaiseCutAndRemove(ds, c, a, l);
    CutIsAccepted(ds, a);
    RefsMeasures(ds, c.orderLine);
    FreeIsNotNegative(Refs(ds, c.orderLine));
    forall d | d in ds ensures !IsStuck(order, d) {
      forall y | 0 <= y < |d.lines| && IsOpen(d) && Started(d) ensures !Gone(order, d.lines[y]) {
        assert d.lines[y] in d.lines;
        OnlyTheRemovedIsGone(ds, c, a, l, d, d.lines[y]);
      }
    }
  }

  lemma RaiseCutAndRemoveIsRefused(ds: seq<Delivery>, i: nat, p: nat, q: nat, x: nat)
    requires Proper(ds) && i < |ds| && Replaceable(ds[i], p, q) && x < |ds[i].lines| && x != p && x != q
    requires ds[i].lines[x].orderLine != "" && RoomOn(ds[i].lines[x]) > 0.0
    ensures var order := RaiseCutAndRemove(ds, ds[i].lines[x], ds[i].lines[p].orderLine, ds[i].lines[q]);
      Update(ds, ListsFirst(i), FindsOne(), order).None?
  {
    var a, c, l := ds[i].lines[p].orderLine, ds[i].lines[x], ds[i].lines[q];
    var order := RaiseCutAndRemove(ds, c, a, l);
    assert ProperLines(ds[i].lines);
    OnlyTheRemovedIsGone(ds, c, a, l, ds[i], l);
    assert order.groups[0].rows[0].id == c.orderLine && order.groups[0].rows[1].id == a;
    RoomLightens(ds, i, p, q, x, order);
    var after := RaiseThenCut(ds, i, p, x, Stuck(order), Shifted(p, q));
    StuckTotal(ds, order);
    StuckTotal(after, order);
    OneGroup(ds, ListsFirst(i), order);
    DropSucceeds(after, FindsOne(), order, 0, |after|);
  }

  lemma RoomLightens(ds: seq<Delivery>, i: nat, p: nat, q: nat, x: nat, order: Order)
    requires Proper(ds) && i < |ds| && Replaceable(ds[i], p, q) && x < |ds[i].lines| && x != p && x != q
    requires Gone(order, ds[i].lines[q]) && InOrder(order, ds[i].lines[p].orderLine)
    requires InOrder(order, ds[i].lines[x].orderLine)
    ensures AlwaysLightens(Stuck(order), WithRoom(ds, i, x)[i], p, Shifted(p, q))
    ensures Harmless(Stuck(order), ds[i].lines[p].orderLine, false) && Steady(Stuck(order), false)
    ensures IgnoresQty(Stuck(order), ds[i].lines[x]) && Stuck(order)(false, ds[i].lines[p]) >= 0.0
  {
    RoomIsFree(ds, i, x);
    StuckLightens(WithRoom(ds, i, x)[i], p, q, x, order);
    StuckIsIgnored(order, ds[i].lines[p].orderLine);
    StuckIsSteady(order);
  }

  lemma OneGroup(ds: seq<Delivery>, names: Naming, order: Order)
    requires |order.groups| == 1 && !order.groups[0].replicates
    ensures UpdateGroups(ds, names, FindsOne(), order.name, order.groups) ==
        UpdateRows(ds, names, FindsOne(), order.groups[0].blocks, order.groups[0].rows)
  {
    assert order.groups[1..] == [];
  }

  /** An order that could be followed in the state before it, and is refused when releases find stock. */
  lemma VulnerableIsRefused(ds: seq<Delivery>) returns (names: Naming, order: Order)
    requires Proper(ds) && !Foreseeable(ds)
    ensures DistinctGroups(order.groups) && Acceptable(ds, order) && Update(ds, names, FindsOne(), order).None?
  {
    var d: Delivery, p: nat, q: nat :| d in ds && Vulnerable(ds, d, p, q);
    var i :| 0 <= i < |ds| && ds[i] == d;
    var a, l := d.lines[p].orderLine, d.lines[q];
    names := ListsFirst(i);
    if FreeQty(l) > 0.0 {
      order := CutBoth(ds, a, l.orderLine);
      CutBothIsPlain(ds, a, l.orderLine);
      CutBothIsRefused(ds, names, i, p, q);
    } else {
      var x :| 0 <= x < |d.lines| && x != p && (FreeQty(d.lines[x]) > 0.0 || (x != q && d.lines[x].orderLine != ""));
      if FreeQty(d.lines[x]) > 0.0 {
        order := CutAndRemove(ds, a, l);
        CutAndRemoveIsPlain(ds, a, l);
        CutAndRemoveIsRefused(ds, names, i, p, q, x);
      } else {
        order := RaiseCutAndRemove(ds, d.lines[x], a, l);
        FullHasRoom(ds, d, x);
        RaiseCutAndRemoveIsPlain(ds, d.lines[x], a, l);
        RaiseCutAndRemoveIsRefused(ds, i, p, q, x);
      }
    }
  }

  lemma FullHasRoom(ds: seq<Delivery>, d: Delivery, x: nat)
    requires Proper(ds) && d in ds && IsOpen(d) && !Started(d) && x < |d.lines| && FreeQty(d.lines[x]) <= 0.0
    ensures RoomOn(d.lines[x]) > 0.0
    ensures forall y ::
        0 <= y < |d.lines| && y != x && d.lines[x].orderLine != "" ==> d.lines[y].orderLine != d.lines[x].orderLine
  {
    NoneStarted(d);
    assert ProperLines(d.lines) && ProperLine(d.lines[x]) && !LineStarted(d.lines[x]);
  }

  /** Whatever the order and whatever the releases find, the refusal is told from the state before, if and only if
      no line can be emptied on an allocating delivery beside an order line with something to lose. */
  lemma RefusalIsForeseenExactly(ds: seq<Delivery>)
    requires Proper(ds)
    ensures Foreseeable(ds) <==> forall names: Naming, found: FollowUp, order: Order ::
      DistinctGroups(order.groups) ==> (Update(ds, names, found, order).None? <==> !Acceptable(ds, order))
  {
    if Foreseeable(ds) {
      forall names: Naming, found: FollowUp, order: Order | DistinctGroups(order.groups)
        ensures Update(ds, names, found, order).None? <==> !Acceptable(ds, order)
      {
        ForeseeableIsEnough(ds, names, found, order);
      }
    } else {
      var names, order := VulnerableIsRefused(ds);
      assert Update(ds, names, FindsOne(), order).None? && Acceptable(ds, order);
    }
  }

  // ---------------------------------------------------------------- room to grow

  /** The delivery carries order line `b`, and can come under execution when line `p` is cut to nothing. */
  predicate LosesRoom(d: Delivery, b: string, p: nat, q: nat) {
    Replaceable(d, p, q) && d.lines[q].orderLine == b && CanStart(d, p, q)
  }

  ghost predicate KeepsRoom(ds: seq<Delivery>, b: string) {
    forall d: Delivery, p: nat, q: nat :: d in ds ==> !LosesRoom(d, b, p, q)
  }

  lemma RoomIsSafe(ds: seq<Delivery>, order: Order, b: string)
    requires Proper(ds) && DistinctGroups(order.groups) && b != "" && KeepsRoom(ds, b)
    ensures Safe(ds, GrowthScope(ds, order, b))
  {
    var S := GrowthScope(ds, order, b);
    forall d | d in ds && IsOpen(d) && !Started(d) && d.mode.Allocates? ensures SafeDelivery(d, S) {
      forall p: nat, x: nat | p < |d.lines| && x < |d.lines| && p != x && Emptiable(d.lines[p]) &&
          d.lines[p].orderLine in S.todo
        ensures !Harms(d, p, x, S)
      {
        if Harms(d, p, x, S) { HarmLosesRoom(ds, order, b, d, p, x); }
      }
    }
  }

  lemma HarmLosesRoom(ds: seq<Delivery>, order: Order, b: string, d: Delivery, p: nat, x: nat)
    requires Proper(ds) && DistinctGroups(order.groups) && b != "" && d in ds && IsOpen(d) && !Started(d)
    requires d.mode.Allocates?
    requires p < |d.lines| && x < |d.lines| && p != x && Emptiable(d.lines[p]) && Listed(order, d.lines[p].orderLine)
    requires Harms(d, p, x, GrowthScope(ds, order, b))
    ensures !KeepsRoom(ds, b)
  {
    var S := GrowthScope(ds, order, b);
    ListedHasName(order, d.lines[p].orderLine);
    assert ProperLines(d.lines);
    var y :| 0 <= y < |d.lines| && y != p && IsKept(S, d.lines[y]);
    if Raised(ds, order, d.lines[x].orderLine) {
      RaisedIsListed(ds, order, d.lines[x].orderLine);
      ListedHasName(order, d.lines[x].orderLine);
    }
    assert CanStart(d, p, y);
    assert LosesRoom(d, b, p, y);
  }

  lemma GrowableLightens(d: Delivery, p: nat, q: nat, x: nat)
    requires p < |d.lines| && q < |d.lines| && p != q && x < |d.lines| && x != p && !Started(d) && d.mode.Allocates?
    requires ProperLines(d.lines)
    requires FreeQty(d.lines[x]) > 0.0
    ensures AlwaysLightens(Growable(d.lines[q].orderLine), d, p, Shifted(p, q))
  {
    var w := Growable(d.lines[q].orderLine);
    StillThere(d, p, q);
    StillThere(d, p, x);
    forall i: nat ensures Lightens(w, d, p, i, Shifted(p, q)) {
      AllottedStarts(Without(d.lines, p), i, Shifted(p, x));
      var t := RenewedAt(Without(d.lines, p), d.mode, i, FindsOne(), Shifted(p, q));
    }
  }

  /** The rows, and after them the order line that is to grow. */
  function Then(ds: seq<Delivery>, rows: seq<OrderLine>, b: string): Order {
    Order("", [Group(false, false, Drafts, rows + [OrderLine(b, OnWms(ds, b) + 1.0, 0.0)])], AllIds(ds))
  }

  lemma TurnAfter(ds: seq<Delivery>, names: Naming, rows: seq<OrderLine>, b: string)
    ensures Turn(ds, names, FindsOne(), Then(ds, rows, b), 0, |rows|) == UpdateRows(ds, names, FindsOne(), false, rows)
  {
    var order := Then(ds, rows, b);
    var group := order.groups[0].(rows := rows);
    assert order.groups[0].rows[..|rows|] == rows;
    assert Earlier(order.groups, 0, |rows|) == [group];
    OneGroup(ds, names, order.(groups := [group]));
  }

  lemma OneRow(ds: seq<Delivery>, names: Naming, row: OrderLine)
    ensures UpdateRows(ds, names, FindsOne(), false, [row]) == UpdateRow(ds, names, FindsOne(), false, row)
  {
    assert [row][1..] == [];
  }

  lemma GrowableIsIgnored(b: string, a: string)
    requires a != b
    ensures Harmless(Growable(b), a, false) && Steady(Growable(b), false)
  {
  }

  /** When the turn of order line `b` comes, fewer lines can grow than before. */
  ghost predicate LosesBefore(ds: seq<Delivery>, names: Naming, rows: seq<OrderLine>, b: string) {
    var turn := UpdateRows(ds, names, FindsOne(), false, rows);
    turn.Some? && Total(turn.value, Growable(b)) < Total(ds, Growable(b))
  }

  lemma CutLosesRoom(ds: seq<Delivery>, b: string, i: nat, p: nat, q: nat, x: nat)
    requires Proper(ds) && b != "" && i < |ds| && Replaceable(ds[i], p, q) && ds[i].lines[q].orderLine == b
    requires x < |ds[i].lines| && x != p && FreeQty(ds[i].lines[x]) > 0.0
    ensures LosesBefore(ds, ListsFirst(i), [CutAll(ds, ds[i].lines[p].orderLine)], b)
  {
    var a := ds[i].lines[p].orderLine;
    GrowableIsIgnored(b, a);
    GrowableLightens(ds[i], p, q, x);
    RowDisturbs(ds, ListsFirst(i), i, p, Growable(b), Shifted(p, q));
    OneRow(ds, ListsFirst(i), CutAll(ds, a));
  }

  lemma RaiseLosesRoom(ds: seq<Delivery>, b: string, i: nat, p: nat, q: nat, x: nat)
    requires Proper(ds) && b != "" && i < |ds| && Replaceable(ds[i], p, q) && ds[i].lines[q].orderLine == b
    requires x < |ds[i].lines| && x != p && x != q && ds[i].lines[x].orderLine != "" && RoomOn(ds[i].lines[x]) > 0.0
    ensures LosesBefore(ds, ListsFirst(i), [Raise(ds, ds[i].lines[x]), CutAll(ds, ds[i].lines[p].orderLine)], b)
  {
    assert ProperLines(ds[i].lines);
    GrowableIsIgnored(b, ds[i].lines[p].orderLine);
    RoomIsFree(ds, i, x);
    GrowableLightens(WithRoom(ds, i, x)[i], p, q, x);
    var after := RaiseThenCut(ds, i, p, x, Growable(b), Shifted(p, q));
  }

  lemma ThenIsDistinct(ds: seq<Delivery>, rows: seq<OrderLine>, b: string)
    requires Distinct(rows) && b != "" && !Among(rows, b)
    ensures DistinctGroups(Then(ds, rows, b).groups)
  {
  }

  /** An order on whose way the room to grow gets less. */
  lemma LostRoom(ds: seq<Delivery>, b: string) returns (names: Naming, rows: seq<OrderLine>)
    requires Proper(ds) && b != "" && !KeepsRoom(ds, b)
    ensures DistinctGroups(Then(ds, rows, b).groups) && LosesBefore(ds, names, rows, b)
  {
    var d: Delivery, p: nat, q: nat :| d in ds && LosesRoom(d, b, p, q);
    var i :| 0 <= i < |ds| && ds[i] == d;
    var x :| 0 <= x < |d.lines| && x != p && (FreeQty(d.lines[x]) > 0.0 || (x != q && d.lines[x].orderLine != ""));
    names := ListsFirst(i);
    assert ProperLines(d.lines);
    if FreeQty(d.lines[x]) > 0.0 {
      rows := [CutAll(ds, d.lines[p].orderLine)];
      CutLosesRoom(ds, b, i, p, q, x);
      ThenIsDistinct(ds, rows, b);
    } else {
      rows := [Raise(ds, d.lines[x]), CutAll(ds, d.lines[p].orderLine)];
      FullHasRoom(ds, d, x);
      RaiseLosesRoom(ds, b, i, p, q, x);
      ThenIsDistinct(ds, rows, b);
    }
  }

  predicate IsRow(order: Order, g: nat, k: nat, b: string) {
    g < |order.groups| && k < |order.groups[g].rows| && order.groups[g].rows[k].id == b
  }

  /** Order line `b` comes to its turn with the lines that can grow that it had before. */
  ghost predicate KeepsRoomTo(ds: seq<Delivery>, names: Naming, found: FollowUp, order: Order, g: nat, k: nat,
        b: string)
    requires IsRow(order, g, k, b)
  {
    var turn := Turn(ds, names, found, order, g, k);
    turn.Some? ==> Total(turn.value, Growable(b)) == Total(ds, Growable(b))
  }

  /** So it is for every order and whatever the releases find, if and only if no delivery that carries the order line
      can come under execution on the way. */
  lemma RoomIsForeseenExactly(ds: seq<Delivery>, b: string)
    requires Proper(ds) && b != ""
    ensures KeepsRoom(ds, b) <==> forall names: Naming, found: FollowUp, order: Order, g: nat, k: nat ::
      DistinctGroups(order.groups) && IsRow(order, g, k, b) ==> KeepsRoomTo(ds, names, found, order, g, k, b)
  {
    if KeepsRoom(ds, b) {
      forall names: Naming, found: FollowUp, order: Order, g: nat, k: nat | DistinctGroups(order.groups) &&
          IsRow(order, g, k, b)
        ensures KeepsRoomTo(ds, names, found, order, g, k, b)
      {
        RoomIsSafe(ds, order, b);
        if Turn(ds, names, found, order, g, k).Some? { TurnKeepsRoom(ds, names, found, order, g, k); }
      }
    } else {
      var names, rows := LostRoom(ds, b);
      TurnAfter(ds, names, rows, b);
      assert IsRow(Then(ds, rows, b), 0, |rows|, b);
      assert !KeepsRoomTo(ds, names, FindsOne(), Then(ds, rows, b), 0, |rows|, b);
    }
  }
}
