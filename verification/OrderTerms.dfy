/** The main results about order updates, told in the terms of deliveries and order lines alone. */
module OrderTerms {
  import opened Basics
  import opened Sums
  import opened OrderUpdate
  import opened OrderTotals
  import opened OrderRows
  import opened OrderRuns
  import opened OrderUpdateProofs
  import OrderFollowUp

  // ---------------------------------------------------------------- what the warehouse handles

  predicate IsStanding(d: Delivery) { d.status in {Draft, Released} }

  /** Allocated, received, issued or picked for in part. */
  ghost predicate IsUnderWay(d: Delivery) {
    d.executing || exists p :: 0 <= p < |d.lines| && (d.lines[p].done > 0.0 || d.lines[p].picked > 0.0)
  }

  function Remaining(id: string): Line -> real {
    (l: Line) => if l.orderLine == id then Max(l.qty - l.done, 0.0) else 0.0
  }

  function Unallocated(id: string): Line -> real {
    (l: Line) => if l.orderLine == id then Max(l.qty - l.done - l.allocatedQty, 0.0) else 0.0
  }

  function InDelivery(f: Line -> real): Delivery -> real {
    (d: Delivery) => if IsStanding(d) then Sum(d.lines, f) else 0.0
  }

  /** The quantity of an order line that stands on deliveries and is not done. */
  function Handled(ds: seq<Delivery>, id: string): real { Sum(ds, InDelivery(Remaining(id))) }

  /** The part of it that is not allocated. */
  function Free(ds: seq<Delivery>, id: string): real { Sum(ds, InDelivery(Unallocated(id))) }

  predicate IsOn(d: Delivery, id: string) {
    IsStanding(d) && exists p :: 0 <= p < |d.lines| && d.lines[p].orderLine == id
  }

  predicate IsSent(ds: seq<Delivery>, id: string) { exists i :: 0 <= i < |ds| && IsOn(ds[i], id) }

  lemma UnderWayIs(d: Delivery)
    ensures Started(d) <==> IsUnderWay(d)
    ensures IsOpen(d) <==> IsStanding(d)
  {
    if AnyStarted(d.lines) {
      var p :| 0 <= p < |d.lines| && LineStarted(d.lines[p]);
      assert d.lines[p].done > 0.0 || d.lines[p].picked > 0.0;
    }
    if p :| 0 <= p < |d.lines| && (d.lines[p].done > 0.0 || d.lines[p].picked > 0.0) {
      assert LineStarted(d.lines[p]);
    }
  }

  lemma HandledIs(ds: seq<Delivery>, id: string)
    ensures OnWms(ds, id) == Handled(ds, id)
  {
    forall i | 0 <= i < |ds|
      ensures WorthOf(OnLine(id, OpenPart()))(ds[i]) == InDelivery(Remaining(id))(ds[i])
    {
      SumAgree(ds[i].lines, ds[i].lines, LineWorth(OnLine(id, OpenPart()), Started(ds[i])), Remaining(id));
    }
    SumAgree(ds, ds, WorthOf(OnLine(id, OpenPart())), InDelivery(Remaining(id)));
  }

  lemma FreeIs(ds: seq<Delivery>, id: string)
    ensures FreeOnWms(ds, id) == Free(ds, id)
  {
    forall i | 0 <= i < |ds|
      ensures WorthOf(OnLine(id, FreePart()))(ds[i]) == InDelivery(Unallocated(id))(ds[i])
    {
      SumAgree(ds[i].lines, ds[i].lines, LineWorth(OnLine(id, FreePart()), Started(ds[i])), Unallocated(id));
    }
    SumAgree(ds, ds, WorthOf(OnLine(id, FreePart())), InDelivery(Unallocated(id)));
  }

  lemma {:induction false} SomeLine(lines: seq<Line>, id: string, started: bool)
    ensures Sum(lines, LineWorth(OnLine(id, One()), started)) >= 0.0
    ensures Sum(lines, LineWorth(OnLine(id, One()), started)) > 0.0 <==>
        exists p :: 0 <= p < |lines| && lines[p].orderLine == id
  {
    if |lines| > 0 {
      var n := |lines| - 1;
      SomeLine(lines[..n], id, started);
      if p :| 0 <= p < n && lines[..n][p].orderLine == id { assert lines[p].orderLine == id; }
      if p :| 0 <= p < |lines| && lines[p].orderLine == id { if p < n { assert lines[..n][p].orderLine == id; } }
    }
  }

  lemma {:induction false} SentIs(ds: seq<Delivery>, id: string)
    ensures LinesOnWms(ds, id) >= 0.0 && (LinesOnWms(ds, id) > 0.0 <==> IsSent(ds, id))
  {
    if |ds| > 0 {
      var n := |ds| - 1;
      SentIs(ds[..n], id);
      SomeLine(ds[n].lines, id, Started(ds[n]));
      if i :| 0 <= i < n && IsOn(ds[..n][i], id) { assert IsOn(ds[i], id); }
      if i :| 0 <= i < |ds| && IsOn(ds[i], id) { if i < n { assert IsOn(ds[..n][i], id); } }
    }
  }

  // ---------------------------------------------------------------- what can be followed

  /** The line was sent for an order line that is in the order no more. */
  ghost predicate IsRemoved(order: Order, l: Line) {
    && l.order == order.name && l.orderLine != "" && l.orderLine !in order.others
    && forall g, k :: 0 <= g < |order.groups| && 0 <= k < |order.groups[g].rows| ==>
        order.groups[g].rows[k].id != l.orderLine
  }

  /** Not sent yet, unchanged, or no more taken back than is free where changes are allowed. */
  ghost predicate RowCanFollow(ds: seq<Delivery>, blocks: bool, row: OrderLine) {
    || !IsSent(ds, row.id)
    || row.ordered - row.done == Handled(ds, row.id)
    || (!blocks && Handled(ds, row.id) - (row.ordered - row.done) <= Free(ds, row.id))
  }

  ghost predicate BlocksRemoval(d: Delivery, order: Order) {
    IsStanding(d) && IsUnderWay(d) && exists p :: 0 <= p < |d.lines| && IsRemoved(order, d.lines[p])
  }

  ghost predicate CanBeFollowed(ds: seq<Delivery>, order: Order) {
    && (forall g, k :: 0 <= g < |order.groups| && 0 <= k < |order.groups[g].rows| ==>
        RowCanFollow(ds, order.groups[g].blocks, order.groups[g].rows[k]))
    && forall i :: 0 <= i < |ds| ==> !BlocksRemoval(ds[i], order)
  }

  lemma RowIs(ds: seq<Delivery>, blocks: bool, row: OrderLine)
    ensures Accepts(ViewOf(ds, row.id), blocks, row) <==> RowCanFollow(ds, blocks, row)
  {
    HandledIs(ds, row.id);
    FreeIs(ds, row.id);
    SentIs(ds, row.id);
  }

  lemma RemovedIs(order: Order, l: Line)
    ensures Gone(order, l) <==> IsRemoved(order, l)
  {
    if InOrder(order, l.orderLine) && l.orderLine !in order.others {
      var g, k :| 0 <= g < |order.groups| && 0 <= k < |order.groups[g].rows| &&
          order.groups[g].rows[k].id == l.orderLine;
    }
  }

  lemma StuckIs(d: Delivery, order: Order)
    ensures IsStuck(order, d) <==> BlocksRemoval(d, order)
  {
    UnderWayIs(d);
    forall p | 0 <= p < |d.lines| ensures Gone(order, d.lines[p]) <==> IsRemoved(order, d.lines[p]) {
      RemovedIs(order, d.lines[p]);
    }
    if HasGone(order, d) {
      var p :| 0 <= p < |d.lines| && Gone(order, d.lines[p]);
      assert IsRemoved(order, d.lines[p]);
    }
  }

  lemma FollowedIs(ds: seq<Delivery>, order: Order)
    ensures Acceptable(ds, order) <==> CanBeFollowed(ds, order)
  {
    forall blocks: bool, row: OrderLine
      ensures Accepts(ViewOf(ds, row.id), blocks, row) <==> RowCanFollow(ds, blocks, row)
    {
      RowIs(ds, blocks, row);
    }
    forall d: Delivery ensures IsStuck(order, d) <==> BlocksRemoval(d, order) { StuckIs(d, order); }
  }

  // ---------------------------------------------------------------- the main results again

  /** Where the warehouse replicates orders it handles exactly what is ordered and not done. */
  lemma ReplicatedIsHandled(ds: seq<Delivery>, names: Naming, found: FollowUp, order: Order, g: nat, k: nat)
    requires Proper(ds) && DistinctGroups(order.groups) && Update(ds, names, found, order).Some?
    requires g < |order.groups| && order.groups[g].replicates && k < |order.groups[g].rows|
    ensures var row := order.groups[g].rows[k];
        Handled(Update(ds, names, found, order).value, row.id) == Max(row.ordered - row.done, 0.0)
  {
    ReplicatingUpdateIsExact(ds, names, found, order, g, k);
    HandledIs(Update(ds, names, found, order).value, order.groups[g].rows[k].id);
  }

  /** A delivery that would be allocated can lose line `p`, and order line `q` goes along with its replacement. */
  ghost predicate CanBeReplaced(d: Delivery, p: nat, q: nat) {
    && p < |d.lines| && q < |d.lines| && IsStanding(d) && !IsUnderWay(d) && d.mode == Allocates
    && d.lines[p].qty > 0.0 && d.lines[p].allocatedQty == 0.0
    && d.lines[p].orderLine != "" && d.lines[q].orderLine != "" && d.lines[q].orderLine != d.lines[p].orderLine
  }

  function FreeOn(l: Line): real { Max(l.qty - l.done - l.allocatedQty, 0.0) }

  /** The replacement's allocation can take what is free of the order line, or put it under execution by what is free or
      can grow elsewhere on the delivery, when it is not under execution yet. */
  ghost predicate IsExposed(ds: seq<Delivery>, d: Delivery, p: nat, q: nat) {
    && CanBeReplaced(d, p, q)
    && (FreeOn(d.lines[q]) > 0.0
      || ((exists x :: 0 <= x < |d.lines| && x != p &&
            (FreeOn(d.lines[x]) > 0.0 || (x != q && d.lines[x].orderLine != ""))) &&
          !exists e: Delivery, l: Line :: e in ds && IsStanding(e) && IsUnderWay(e) && l in e.lines &&
            l.order == d.lines[q].order && l.orderLine == d.lines[q].orderLine))
  }

  lemma ExposedIs(ds: seq<Delivery>, d: Delivery, p: nat, q: nat)
    ensures OrderFollowUp.Vulnerable(ds, d, p, q) <==> IsExposed(ds, d, p, q)
  {
    forall e: Delivery ensures (Started(e) <==> IsUnderWay(e)) && (IsOpen(e) <==> IsStanding(e)) { UnderWayIs(e); }
  }

  /** The refusal of an order is told from the state before it, whatever the listing and the allocations at release, if
      and only if no delivery is exposed. */
  lemma RefusalIsToldExactly(ds: seq<Delivery>)
    requires Proper(ds)
    ensures (forall d: Delivery, p: nat, q: nat :: d in ds ==> !IsExposed(ds, d, p, q)) <==>
      forall names: Naming, found: FollowUp, order: Order :: DistinctGroups(order.groups) ==>
        (Update(ds, names, found, order).None? <==> !CanBeFollowed(ds, order))
  {
    OrderFollowUp.RefusalIsForeseenExactly(ds);
    forall d: Delivery, p: nat, q: nat
      ensures OrderFollowUp.Vulnerable(ds, d, p, q) <==> IsExposed(ds, d, p, q)
    {
      ExposedIs(ds, d, p, q);
    }
    forall order: Order ensures Acceptable(ds, order) <==> CanBeFollowed(ds, order) { FollowedIs(ds, order); }
  }
}
