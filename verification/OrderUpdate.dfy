/** Following "Update Items" on a submitted order into the deliveries the warehouse already has. */
module OrderUpdate {
  import opened Basics
  import opened Sums
  import opened Sorting

  /** A delivery line; `orderLine` is empty when no order stands behind it. */
  datatype Line = Line(order: string, orderLine: string, qty: real, done: real, picked: real, allocatedQty: real)

  datatype Status = Draft | Released | Closed | Cancelled | Deleted

  /** What its warehouse does with a new delivery: leaves it a draft, releases it, or allocates stock to it as well. */
  datatype Mode = Drafts | Releases | Allocates

  /** `executing`: a live stock allocation or a posted goods receipt names the delivery. */
  datatype Delivery = Delivery(status: Status, lines: seq<Line>, executing: bool, mode: Mode)

  /** An order line's quantity and what ERPNext has delivered or received of it, both in the stock unit. */
  datatype OrderLine = OrderLine(id: string, ordered: real, done: real)

  /** The order lines of one WMS warehouse. */
  datatype Group = Group(blocks: bool, replicates: bool, mode: Mode, rows: seq<OrderLine>)

  /** `others`: the lines whose warehouse the WMS does not manage. */
  datatype Order = Order(name: string, groups: seq<Group>, others: set<string>)

  /** A row of the query for the open lines of one order line. */
  datatype Ref = Ref(parent: nat, pos: nat, line: Line)

  /** Deliveries are never taken out of the list, so that an index names one. `name(i)` places its name in name order,
      and `place(i, p)` its line `p` in the answers of the query, which asks for no order. */
  datatype Naming = Naming(name: nat -> int, place: (nat, nat) -> int)

  /** `found(i, p)`: the stock that the allocation at the release of the new delivery `i` finds for its line `p`; none
      where it fails. */
  type FollowUp = (nat, nat) -> real

  predicate IsOpen(d: Delivery) { d.status.Draft? || d.status.Released? }

  predicate LineStarted(l: Line) { l.done > 0.0 || l.picked > 0.0 }

  predicate AnyStarted(lines: seq<Line>) { exists p :: 0 <= p < |lines| && LineStarted(lines[p]) }

  predicate Started(d: Delivery) { d.executing || AnyStarted(d.lines) }

  function OpenQty(l: Line): real { Max(l.qty - l.done, 0.0) }

  function FreeQty(l: Line): real { Max(l.qty - l.done - l.allocatedQty, 0.0) }

  // ---------------------------------------------------------------- the steps on values

  function LineRefs(lines: seq<Line>, parent: nat, id: string): (r: seq<Ref>) {
    var n := |lines| - 1;
    if |lines| == 0 then []
    else LineRefs(lines[..n], parent, id) + if lines[n].orderLine == id then [Ref(parent, n, lines[n])] else []
  }

  /** The open lines of an order line. */
  function Refs(ds: seq<Delivery>, id: string): (r: seq<Ref>) {
    var n := |ds| - 1;
    if |ds| == 0 then [] else Refs(ds[..n], id) + if IsOpen(ds[n]) then LineRefs(ds[n].lines, n, id) else []
  }

  function SetQty(ds: seq<Delivery>, i: nat, p: nat, q: real): seq<Delivery>
    requires i < |ds| && p < |ds[i].lines|
  {
    ds[i := ds[i].(lines := ds[i].lines[p := ds[i].lines[p].(qty := q)])]
  }

  function Withdrawn(s: Status): Status {
    match s case Draft => Deleted case Released => Cancelled case _ => s
  }

  function Held(l: Line, t: real): Line { l.(allocatedQty := l.allocatedQty + t) }

  /** An allocation takes what it finds, up to what the line still lacks. */
  function Allotted(l: Line, x: real): Line { Held(l, Min(Max(x, 0.0), Max(l.qty - l.allocatedQty, 0.0))) }

  function AllAllotted(lines: seq<Line>, i: nat, found: FollowUp): (r: seq<Line>) {
    seq(|lines|, p requires 0 <= p < |lines| => Allotted(lines[p], found(i, p)))
  }

  /** Delivery `i` as it is after its creation. */
  function NewDelivery(lines: seq<Line>, mode: Mode, i: nat, found: FollowUp): Delivery {
    var held := if mode.Allocates? then AllAllotted(lines, i, found) else lines;
    Delivery(if mode.Drafts? then Draft else Released, held, held != lines, mode)
  }

  /** Withdrawn, and created anew with the lines that are left. */
  function Rebuild(ds: seq<Delivery>, i: nat, kept: seq<Line>, found: FollowUp): seq<Delivery>
    requires i < |ds|
  {
    var withdrawn := ds[i := ds[i].(status := Withdrawn(ds[i].status))];
    if |kept| == 0 then withdrawn else withdrawn + [NewDelivery(kept, ds[i].mode, |ds|, found)]
  }

  function Without(lines: seq<Line>, p: nat): seq<Line>
    requires p < |lines|
  {
    lines[..p] + lines[p + 1..]
  }

  predicate Points(ds: seq<Delivery>, r: Ref) { r.parent < |ds| && r.pos < |ds[r.parent].lines| }

  function Takes(r: Ref, amount: real): real { Min(amount, FreeQty(r.line)) }

  function Taken(r: Ref, amount: real): real { if amount <= 0.0 then 0.0 else Takes(r, amount) }

  ghost predicate AllPoint(ds: seq<Delivery>, refs: seq<Ref>) { forall k :: 0 <= k < |refs| ==> Points(ds, refs[k]) }

  /** What the query said of the lines from `k` on still holds. */
  ghost predicate CurrentFrom(ds: seq<Delivery>, refs: seq<Ref>, k: nat, id: string) {
    forall j :: k <= j < |refs| ==> Current(ds, refs[j], id)
  }

  ghost predicate Current(ds: seq<Delivery>, r: Ref, id: string) {
    Points(ds, r) && IsOpen(ds[r.parent]) && ds[r.parent].lines[r.pos] == r.line && r.line.orderLine == id
  }

  /** One turn of the reduction. A deleted draft cannot be loaded any more. */
  function TakeFrom(ds: seq<Delivery>, found: FollowUp, r: Ref, amount: real): (x: Option<seq<Delivery>>)
    requires Points(ds, r)
  {
    var take := Takes(r, amount);
    if amount <= 0.0 then Some(ds)
    else if ds[r.parent].status.Deleted? then None
    else if take <= 0.0 then Some(ds)
    else if r.line.qty - take <= 0.0 &&
        !Started(ds[r.parent]) then Some(Rebuild(ds, r.parent, Without(ds[r.parent].lines, r.pos), found))
    else Some(SetQty(ds, r.parent, r.pos, r.line.qty - take))
  }

  lemma StillPoint(ds: seq<Delivery>, found: FollowUp, refs: seq<Ref>, k: nat, amount: real)
    requires k < |refs| && AllPoint(ds, refs)
    ensures TakeFrom(ds, found, refs[k], amount).Some? ==> AllPoint(TakeFrom(ds, found, refs[k], amount).value, refs)
  {
    if TakeFrom(ds, found, refs[k], amount).Some? {
      forall j | 0 <= j < |refs|
        ensures Points(TakeFrom(ds, found, refs[k], amount).value, refs[j])
      {
        assert Points(ds, refs[j]);
      }
    }
  }

  /** Takes `amount` off the lines from `k` on; what is left of it comes back. */
  function Reduce(ds: seq<Delivery>, found: FollowUp, refs: seq<Ref>, k: nat, amount: real): Option<(seq<Delivery>,
        real)>
    requires k <= |refs| && AllPoint(ds, refs)
    decreases |refs| - k
  {
    if k == |refs| then Some((ds, amount))
    else
      StillPoint(ds, found, refs, k, amount);
      match TakeFrom(ds, found, refs[k], amount)
      case None => None
      case Some(next) => Reduce(next, found, refs, k + 1, amount - Taken(refs[k], amount))
  }

  /** More ordered: the first line from `k` on whose delivery has not started grows, if there is one. */
  function Grow(ds: seq<Delivery>, refs: seq<Ref>, k: nat, diff: real): seq<Delivery>
    requires k <= |refs| && AllPoint(ds, refs)
    decreases |refs| - k
  {
    if k == |refs| then ds
    else
      var r := refs[k];
      if !Started(ds[r.parent]) then SetQty(ds, r.parent, r.pos, r.line.qty + diff) else Grow(ds, refs, k + 1, diff)
  }

  function NewestFirst(names: Naming): (Ref, Ref) -> bool {
    (a: Ref, b: Ref) => names.name(a.parent) >= names.name(b.parent)
  }

  function AsListed(names: Naming): (Ref, Ref) -> bool {
    (a: Ref, b: Ref) => names.place(a.parent, a.pos) <= names.place(b.parent, b.pos)
  }

  /** What the query for the open lines of an order line answers. */
  function OpenLines(ds: seq<Delivery>, names: Naming, id: string): seq<Ref> { SortBy(Refs(ds, id), AsListed(names)) }

  function NewestLines(ds: seq<Delivery>, names: Naming, id: string): seq<Ref> {
    SortBy(OpenLines(ds, names, id), NewestFirst(names))
  }

  function OpenOf(): Ref -> real { (r: Ref) => OpenQty(r.line) }

  function FreeOf(): Ref -> real { (r: Ref) => FreeQty(r.line) }

  lemma {:induction false} LineRefsPoint(lines: seq<Line>, parent: nat, id: string)
    ensures forall r <- LineRefs(lines, parent, id) ::
        r.parent == parent && r.pos < |lines| && lines[r.pos] == r.line && r.line.orderLine == id
  {
    if |lines| != 0 { LineRefsPoint(lines[..|lines| - 1], parent, id); }
  }

  lemma {:induction false} RefsPoint(ds: seq<Delivery>, id: string)
    ensures CurrentFrom(ds, Refs(ds, id), 0, id) && AllPoint(ds, Refs(ds, id))
  {
    if |ds| != 0 {
      var n := |ds| - 1;
      var before := Refs(ds[..n], id);
      RefsPoint(ds[..n], id);
      LineRefsPoint(ds[n].lines, n, id);
      forall j | 0 <= j < |Refs(ds, id)| ensures Current(ds, Refs(ds, id)[j], id) {
        if j < |before| { assert Current(ds[..n], before[j], id); }
            else { assert Refs(ds, id)[j] in LineRefs(ds[n].lines, n, id); }
      }
    }
  }

  lemma SortedPoint(ds: seq<Delivery>, refs: seq<Ref>, le: (Ref, Ref) -> bool, id: string)
    requires CurrentFrom(ds, refs, 0, id)
    ensures CurrentFrom(ds, SortBy(refs, le), 0, id) && AllPoint(ds, SortBy(refs, le))
  {
    var sorted := SortBy(refs, le);
    SortPermutes(refs, le);
    forall j | 0 <= j < |sorted| ensures Current(ds, sorted[j], id) {
      assert sorted[j] in multiset(sorted) && sorted[j] in multiset(refs);
      var k :| 0 <= k < |refs| && refs[k] == sorted[j];
      assert Current(ds, refs[k], id);
    }
  }

  lemma OpenLinesPoint(ds: seq<Delivery>, names: Naming, id: string)
    ensures CurrentFrom(ds, OpenLines(ds, names, id), 0, id) && AllPoint(ds, OpenLines(ds, names, id))
    ensures CurrentFrom(ds, NewestLines(ds, names, id), 0, id) && AllPoint(ds, NewestLines(ds, names, id))
  {
    RefsPoint(ds, id);
    SortedPoint(ds, Refs(ds, id), AsListed(names), id);
    SortedPoint(ds, OpenLines(ds, names, id), NewestFirst(names), id);
  }

  function UpdateRow(ds: seq<Delivery>, names: Naming, found: FollowUp, blocks: bool,
        row: OrderLine): Option<seq<Delivery>>
  {
    var refs := OpenLines(ds, names, row.id);
    var diff := row.ordered - row.done - Sum(refs, OpenOf());
    if |refs| == 0 || diff == 0.0 then Some(ds)
    else if blocks then None
    else if diff < 0.0 then
      OpenLinesPoint(ds, names, row.id);
      match Reduce(ds, found, NewestLines(ds, names, row.id), 0, -diff)
      case None => None
      case Some(reduced) => if reduced.1 > 0.0 then None else Some(reduced.0)
    else
      OpenLinesPoint(ds, names, row.id);
      Some(Grow(ds, refs, 0, diff))
  }

  function UpdateRows(ds: seq<Delivery>, names: Naming, found: FollowUp, blocks: bool,
        rows: seq<OrderLine>): Option<seq<Delivery>>
    decreases |rows|
  {
    if |rows| == 0 then Some(ds)
    else
      match UpdateRow(ds, names, found, blocks, rows[0])
      case None => None
      case Some(next) => UpdateRows(next, names, found, blocks, rows[1..])
  }

  /** What a new delivery may still take on. */
  function Outstanding(ds: seq<Delivery>, row: OrderLine): real {
    row.ordered - row.done - Sum(Refs(ds, row.id), OpenOf())
  }

  function NewLines(ds: seq<Delivery>, order: string, rows: seq<OrderLine>): (r: seq<Line>) {
    var n := |rows| - 1;
    if |rows| == 0 then []
    else
      var qty := Outstanding(ds, rows[n]);
      NewLines(ds, order, rows[..n]) + if qty > 0.0 then [Line(order, rows[n].id, qty, 0.0, 0.0, 0.0)] else []
  }

  function CreateDelivery(ds: seq<Delivery>, found: FollowUp, order: string, group: Group): seq<Delivery> {
    var lines := NewLines(ds, order, group.rows);
    if |lines| == 0 then ds else ds + [NewDelivery(lines, group.mode, |ds|, found)]
  }

  function UpdateGroup(ds: seq<Delivery>, names: Naming, found: FollowUp, order: string,
        group: Group): Option<seq<Delivery>>
  {
    match UpdateRows(ds, names, found, group.blocks, group.rows)
    case None => None
    case Some(next) => Some(if group.replicates then CreateDelivery(next, found, order, group) else next)
  }

  function UpdateGroups(ds: seq<Delivery>, names: Naming, found: FollowUp, order: string,
        groups: seq<Group>): Option<seq<Delivery>>
    decreases |groups|
  {
    if |groups| == 0 then Some(ds)
    else
      match UpdateGroup(ds, names, found, order, groups[0])
      case None => None
      case Some(next) => UpdateGroups(next, names, found, order, groups[1..])
  }

  predicate InOrder(order: Order, id: string) {
    || id in order.others
    || exists g, k ::
         0 <= g < |order.groups| && 0 <= k < |order.groups[g].rows| && order.groups[g].rows[k].id == id
  }

  /** The line was sent for an order line that the order no longer has. */
  predicate Gone(order: Order, l: Line) { l.orderLine != "" && l.order == order.name && !InOrder(order, l.orderLine) }

  function Stays(order: Order): Line -> bool { (l: Line) => !Gone(order, l) }

  predicate HasGone(order: Order, d: Delivery) { exists p :: 0 <= p < |d.lines| && Gone(order, d.lines[p]) }

  /** The deliveries from `i` up to `n` lose the lines the order no longer has. */
  function DropRemoved(ds: seq<Delivery>, found: FollowUp, order: Order, i: nat, n: nat): Option<seq<Delivery>>
    requires i <= n <= |ds|
    decreases n - i
  {
    if i == n then Some(ds)
    else if IsOpen(ds[i]) && HasGone(order, ds[i]) then
      if Started(ds[i]) then None else DropRemoved(Rebuild(ds, i, Filter(ds[i].lines, Stays(order)), found), found,
          order, i + 1, n)
    else DropRemoved(ds, found, order, i + 1, n)
  }

  /** The whole event; None is a refusal, which leaves everything as it was. */
  function Update(ds: seq<Delivery>, names: Naming, found: FollowUp, order: Order): Option<seq<Delivery>> {
    match UpdateGroups(ds, names, found, order.name, order.groups)
    case None => None
    case Some(next) => DropRemoved(next, found, order, 0, |next|)
  }

  // ---------------------------------------------------------------- the steps in place

  class OrderSync {
    const names: Naming
    const found: FollowUp
    var deliveries: seq<Delivery>

    constructor (names: Naming, found: FollowUp, deliveries: seq<Delivery>)
      ensures this.names == names && this.found == found && this.deliveries == deliveries
    {
      this.names, this.found, this.deliveries := names, found, deliveries;
    }

    /** A refused event is rolled back. */
    method OnOrderUpdate(order: Order) returns (ok: bool)
      modifies this
      ensures var result := Update(old(deliveries), names, found, order);
          ok == result.Some? && deliveries == if ok then result.value else old(deliveries)
    {
      var before := deliveries;
      ok := true;
      var g := 0;
      while ok && g < |order.groups|
        invariant 0 <= g <= |order.groups|
        invariant UpdateGroups(before, names, found, order.name, order.groups) ==
            if ok then UpdateGroups(deliveries, names, found, order.name, order.groups[g..]) else None
        decreases |order.groups| - g, ok
      {
        assert order.groups[g..][0] == order.groups[g] && order.groups[g..][1..] == order.groups[g + 1..];
        ok := FollowGroup(order.name, order.groups[g]);
        if ok { g := g + 1; }
      }
      if ok {
        assert order.groups[g..] == [];
        ok := DropRemovedLines(order);
      }
      if !ok { deliveries := before; }
    }

    method FollowGroup(order: string, group: Group) returns (ok: bool)
      modifies this
      ensures var result := UpdateGroup(old(deliveries), names, found, order, group);
          ok == result.Some? && (ok ==> deliveries == result.value)
    {
      ok := true;
      var k := 0;
      ghost var before := deliveries;
      while ok && k < |group.rows|
        invariant 0 <= k <= |group.rows|
        invariant UpdateRows(before, names, found, group.blocks, group.rows) ==
            if ok then UpdateRows(deliveries, names, found, group.blocks, group.rows[k..]) else None
        decreases |group.rows| - k, ok
      {
        assert group.rows[k..][0] == group.rows[k] && group.rows[k..][1..] == group.rows[k + 1..];
        ok := FollowRow(group.blocks, group.rows[k]);
        if ok { k := k + 1; }
      }
      if ok {
        assert group.rows[k..] == [];
        if group.replicates { CreateForOutstanding(order, group); }
      }
    }

    method FollowRow(blocks: bool, row: OrderLine) returns (ok: bool)
      modifies this
      ensures var result := UpdateRow(old(deliveries), names, found, blocks, row);
          ok == result.Some? && (ok ==> deliveries == result.value)
    {
      var refs := OpenLines(deliveries, names, row.id);
      var diff := row.ordered - row.done - Sum(refs, OpenOf());
      if |refs| == 0 || diff == 0.0 { return true; }
      if blocks { return false; }
      if diff < 0.0 {
        OpenLinesPoint(deliveries, names, row.id);
        ok := ReduceLines(SortBy(refs, NewestFirst(names)), -diff);
      } else {
        OpenLinesPoint(deliveries, names, row.id);
        GrowLine(refs, diff);
        ok := true;
      }
    }

    method ReduceLines(refs: seq<Ref>, amount: real) returns (ok: bool)
      requires AllPoint(deliveries, refs)
      modifies this
      ensures var result := Reduce(old(deliveries), found, refs, 0, amount);
        ok == (result.Some? && result.value.1 <= 0.0) && (ok ==> deliveries == result.value.0)
    {
      var left, k := amount, 0;
      ghost var result := Reduce(deliveries, found, refs, 0, amount);
      while k < |refs| && left > 0.0
        invariant 0 <= k <= |refs| && AllPoint(deliveries, refs) && Reduce(deliveries, found, refs, k, left) == result
      {
        StillPoint(deliveries, found, refs, k, left);
        var next := TakeFrom(deliveries, found, refs[k], left);
        if next.None? { return false; }
        left, deliveries, k := left - Takes(refs[k], left), next.value, k + 1;
      }
      NothingLeft(deliveries, found, refs, k, left);
      ok := left <= 0.0;
    }

    method GrowLine(refs: seq<Ref>, diff: real)
      requires AllPoint(deliveries, refs)
      modifies this
      ensures deliveries == Grow(old(deliveries), refs, 0, diff)
    {
      for k := 0 to |refs|
        invariant deliveries == old(deliveries) && Grow(deliveries, refs, 0, diff) == Grow(deliveries, refs, k, diff)
      {
        var r := refs[k];
        if !Started(deliveries[r.parent]) {
          deliveries := SetQty(deliveries, r.parent, r.pos, r.line.qty + diff);
          return;
        }
      }
    }

    method CreateForOutstanding(order: string, group: Group)
      modifies this
      ensures deliveries == CreateDelivery(old(deliveries), found, order, group)
    {
      var lines: seq<Line> := [];
      for k := 0 to |group.rows|
        invariant lines == NewLines(deliveries, order, group.rows[..k]) && deliveries == old(deliveries)
      {
        assert group.rows[..k + 1][..k] == group.rows[..k];
        var qty := Outstanding(deliveries, group.rows[k]);
        lines := lines + if qty > 0.0 then [Line(order, group.rows[k].id, qty, 0.0, 0.0, 0.0)] else [];
      }
      assert group.rows[..|group.rows|] == group.rows;
      if |lines| != 0 { deliveries := deliveries + [NewDelivery(lines, group.mode, |deliveries|, found)]; }
    }

    method DropRemovedLines(order: Order) returns (ok: bool)
      modifies this
      ensures var result := DropRemoved(old(deliveries), found, order, 0, |old(deliveries)|);
          ok == result.Some? && (ok ==> deliveries == result.value)
    {
      var n := |deliveries|;
      ghost var before := deliveries;
      for i := 0 to n
        invariant n <= |deliveries|
        invariant DropRemoved(before, found, order, 0, n) == DropRemoved(deliveries, found, order, i, n)
      {
        if IsOpen(deliveries[i]) && HasGone(order, deliveries[i]) {
          if Started(deliveries[i]) { return false; }
          deliveries := Rebuild(deliveries, i, Filter(deliveries[i].lines, Stays(order)), found);
        }
      }
      ok := true;
    }
  }

  lemma {:induction false} NothingLeft(ds: seq<Delivery>, found: FollowUp, refs: seq<Ref>, k: nat, amount: real)
    requires k <= |refs| && AllPoint(ds, refs) && (k == |refs| || amount <= 0.0)
    ensures Reduce(ds, found, refs, k, amount) == Some((ds, amount))
    decreases |refs| - k
  {
    if k < |refs| { NothingLeft(ds, found, refs, k + 1, amount); }
  }
}
