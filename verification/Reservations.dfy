/** Reservations: outbound delivery lines claim stock balances by allocation, and incoming goods by cross-docking. */
module Reservations {
  import opened Basics
  import opened Sums
  import opened Sorting

  datatype Balance = Balance(quantity: real, allocatedQuantity: real, available: real)

  datatype Delivery = Delivery(open: bool, items: seq<string>)

  datatype Line = Line(delivery: string, requested: real, allocatedQuantity: real, picked: real, packed: real,
      issued: real)

  datatype Allocation = Allocation(delivery: string, line: string, balance: string, quantity: real, cancelled: bool)

  datatype PlanStatus = Planned | Done | Cancelled

  /** One row of an inbound delivery's cross-docking plan. */
  datatype Plan = Plan(inbound: string, inboundLine: string, delivery: string, line: string, planned: real,
      consumed: real, status: PlanStatus)

  /** A Cross Dock warehouse request raised by a goods receipt. */
  datatype Request = Request(delivery: string, line: string, quantity: real, cancelled: bool)

  datatype Book = Book(
    balances: map<string, Balance>,
    deliveries: map<string, Delivery>,
    lines: map<string, Line>,
    allocations: seq<Allocation>,
    plans: seq<Plan>,
    requests: seq<Request>)

  // ---------------------------------------------------------------- allocation

  predicate IsOpen(bk: Book, delivery: string) { delivery in bk.deliveries && bk.deliveries[delivery].open }

  /** Draws a line's need from the candidate balances in turn; answers what is still needed. */
  function DrawDown(bk: Book, delivery: string, line: string, candidates: seq<string>, needed: real): (Book, real)
    decreases |candidates|
  {
    if |candidates| == 0 || needed <= 0.0 then (bk, needed)
    else
      var b := candidates[0];
      if b !in bk.balances || bk.balances[b].available <= 0.0 then DrawDown(bk, delivery, line, candidates[1..], needed)
      else
        var taken := Min(needed, bk.balances[b].available);
        DrawDown(Take(bk, delivery, line, b, taken), delivery, line, candidates[1..], needed - taken)
  }

  function Take(bk: Book, delivery: string, line: string, b: string, taken: real): Book
    requires b in bk.balances
  {
    var balance := bk.balances[b];
    bk.(allocations := bk.allocations + [Allocation(delivery, line, b, taken, false)],
        balances := bk.balances[b := balance.(allocatedQuantity := balance.allocatedQuantity + taken,
            available := balance.available - taken)])
  }

  function AllocateLine(bk: Book, delivery: string, line: string, candidates: seq<string>): Book {
    if line !in bk.lines || bk.lines[line].delivery != delivery then bk
    else
      var l := bk.lines[line];
      var (after, needed) := DrawDown(bk, delivery, line, candidates, l.requested - l.allocatedQuantity);
      after.(lines := after.lines[line := l.(allocatedQuantity := l.requested - needed)])
  }

  function AllocateLines(bk: Book, delivery: string, items: seq<string>, candidates: map<string, seq<string>>): Book
    decreases |items|
  {
    if |items| == 0 then bk
    else AllocateLines(AllocateLine(bk, delivery, items[0], CandidatesOf(candidates, items[0])), delivery, items[1..],
        candidates)
  }

  function CandidatesOf(candidates: map<string, seq<string>>, line: string): seq<string> {
    if line in candidates then candidates[line] else []
  }

  /** Refused (nothing changes) unless the delivery is submitted. */
  function Allocate(bk: Book, delivery: string, candidates: map<string, seq<string>>): Book {
    if !IsOpen(bk, delivery) then bk else AllocateLines(bk, delivery, bk.deliveries[delivery].items, candidates)
  }

  /** Gives one allocation back to its balance. */
  function ReleaseAllocation(bk: Book, i: nat): Book
    requires i < |bk.allocations|
  {
    var a := bk.allocations[i];
    bk.(allocations := bk.allocations[i := a.(cancelled := true)],
        balances := if a.balance !in bk.balances then bk.balances
            else bk.balances[a.balance := Released(bk.balances[a.balance], a.quantity)])
  }

  function Released(b: Balance, quantity: real): Balance {
    var allocatedQuantity := Max(b.allocatedQuantity - quantity, 0.0);
    b.(allocatedQuantity := allocatedQuantity, available := b.quantity - allocatedQuantity)
  }

  /** cancel_allocations_for_delivery, over the allocations up to `n`. */
  function ReleaseAllocations(bk: Book, delivery: string, n: nat): Book
    requires n <= |bk.allocations|
    ensures |ReleaseAllocations(bk, delivery, n).allocations| == |bk.allocations|
    ensures ReleaseAllocations(bk, delivery, n).deliveries == bk.deliveries
    decreases n
  {
    if n == 0 then bk
    else
      var before := ReleaseAllocations(bk, delivery, n - 1);
      var a := before.allocations[n - 1];
      if a.delivery == delivery && !a.cancelled then ReleaseAllocation(before, n - 1) else before
  }

  // ---------------------------------------------------------------- cross-docking

  /** Quantity of an incoming row that goes straight to a delivery line. */
  datatype Match = Match(line: string, quantity: real)

  function Outstanding(lines: map<string, Line>, line: string): real {
    if line in lines then lines[line].requested - lines[line].allocatedQuantity else 0.0
  }

  function Matches(lines: map<string, Line>, demand: seq<string>, remaining: real): seq<Match>
    decreases |demand|
  {
    if |demand| == 0 || remaining <= 0.0 then []
    else
      var take := Min(remaining, Outstanding(lines, demand[0]));
      if take <= 0.0 then Matches(lines, demand[1..], remaining)
      else [Match(demand[0], take)] + Matches(lines, demand[1..], remaining - take)
  }

  /** Lines of open deliveries that still want something, in the order of the query. */
  function OpenDemand(bk: Book, order: seq<string>): seq<string> {
    Filter(order, StillWants(bk))
  }

  function StillWants(bk: Book): string -> bool {
    (l: string) => l in bk.lines && IsOpen(bk, bk.lines[l].delivery) &&
        bk.lines[l].requested > bk.lines[l].allocatedQuantity
  }

  function FindDemand(bk: Book, order: seq<string>, quantity: real): seq<Match> {
    Matches(bk.lines, OpenDemand(bk, order), quantity)
  }

  /** Claims the matched quantity on the line. */
  function Reserve(bk: Book, m: Match): Book {
    if m.line !in bk.lines then bk
    else
      var l := bk.lines[m.line];
      bk.(lines := bk.lines[m.line := l.(allocatedQuantity := l.allocatedQuantity + m.quantity)])
  }

  function DeliveryOf(bk: Book, line: string): string { if line in bk.lines then bk.lines[line].delivery else "" }

  function RaiseRequest(bk: Book, m: Match): Book {
    bk.(requests := bk.requests + [Request(DeliveryOf(bk, m.line), m.line, m.quantity, false)])
  }

  /** Opportunistic: every match is reserved and routed at once. */
  function RouteMatches(bk: Book, matches: seq<Match>): Book
    decreases |matches|
  {
    if |matches| == 0 then bk else RouteMatches(RaiseRequest(Reserve(bk, matches[0]), matches[0]), matches[1..])
  }

  function PlanMatches(bk: Book, inbound: string, inboundLine: string, matches: seq<Match>): Book
    decreases |matches|
  {
    if |matches| == 0 then bk
    else
      var m := matches[0];
      var reserved := Reserve(bk, m);
      PlanMatches(reserved.(plans := reserved.plans + [Plan(inbound, inboundLine, DeliveryOf(bk, m.line), m.line,
          m.quantity, 0.0, Planned)]),
                  inbound, inboundLine, matches[1..])
  }

  function OpenPlan(p: Plan): real { if p.status == Planned then p.planned - p.consumed else 0.0 }

  function PlannedFor(inboundLine: string): Plan -> real {
    (p: Plan) => if p.inboundLine == inboundLine then OpenPlan(p) else 0.0
  }

  datatype InboundRow = InboundRow(line: string, expected: real, received: real, order: seq<string>)

  /** plan_cross_dock: plans what is not planned yet of each inbound row. */
  function PlanInbound(bk: Book, inbound: string, rows: seq<InboundRow>): Book
    decreases |rows|
  {
    if |rows| == 0 then bk
    else
      var r := rows[0];
      var openQuantity := r.expected - r.received - Sum(bk.plans, PlannedFor(r.line));
      var after := if openQuantity <= 0.0 then bk
          else PlanMatches(bk, inbound, r.line, FindDemand(bk, r.order, openQuantity));
      PlanInbound(after, inbound, rows[1..])
  }

  /** planned_matches and consume_plan over the plan rows from `from` on: what a receipt row takes from each. */
  function ConsumePlans(bk: Book, inboundLine: string, from: nat, left: real): (Book, real)
    requires from <= |bk.plans|
    decreases |bk.plans| - from
  {
    if from == |bk.plans| || left <= 0.0 then (bk, left)
    else
      var p := bk.plans[from];
      var take := Min(left, p.planned - p.consumed);
      if p.inboundLine != inboundLine || p.status != Planned ||
          take <= 0.0 then ConsumePlans(bk, inboundLine, from + 1, left)
      else ConsumePlans(Consume(bk, from, take), inboundLine, from + 1, left - take)
  }

  function Consume(bk: Book, i: nat, take: real): Book
    requires i < |bk.plans|
  {
    var p := bk.plans[i];
    var consumed := p.consumed + take;
    var status := if consumed >= p.planned then Done else Planned;
    bk.(plans := bk.plans[i := p.(consumed := consumed, status := status)],
        requests := bk.requests + [Request(p.delivery, p.line, take, false)])
  }

  /** One goods-receipt row: planned demand first, then whatever else is open; the rest is put away. */
  function ReceiveRow(bk: Book, inboundLine: string, quantity: real, order: seq<string>): (Book, real) {
    var (consumed, left) := ConsumePlans(bk, inboundLine, 0, quantity);
    var matches := FindDemand(consumed, order, left);
    (RouteMatches(consumed, matches), left - Sum(matches, MatchedQuantity()))
  }

  function MatchedQuantity(): Match -> real { (m: Match) => m.quantity }

  /** cancel_cross_dock_plan for an inbound delivery: the goods never come, so the demand is given back. */
  function CancelInboundPlans(bk: Book, inbound: string, n: nat): Book
    requires n <= |bk.plans|
    ensures |CancelInboundPlans(bk, inbound, n).plans| == |bk.plans|
    decreases n
  {
    if n == 0 then bk
    else
      var before := CancelInboundPlans(bk, inbound, n - 1);
      var p := before.plans[n - 1];
      if p.inbound == inbound && p.status == Planned then GiveBackPlan(before, n - 1) else before
  }

  function GiveBackPlan(bk: Book, i: nat): Book
    requires i < |bk.plans|
  {
    var p := bk.plans[i];
    bk.(plans := bk.plans[i := p.(status := Cancelled)],
        lines := if p.planned - p.consumed > 0.0 && p.line in bk.lines
                 then bk.lines[p.line := bk.lines[p.line].(allocatedQuantity :=
                        Max(bk.lines[p.line].allocatedQuantity - (p.planned - p.consumed), 0.0))]
                 else bk.lines)
  }

  /** The outbound side is gone: its plans and requests go with it. */
  function DropPlan(delivery: string): Plan -> Plan {
    (p: Plan) => if p.delivery == delivery && p.status == Planned then p.(status := Cancelled) else p
  }

  function DropRequest(delivery: string): Request -> Request {
    (r: Request) => if r.delivery == delivery then r.(cancelled := true) else r
  }

  function Each<T>(s: seq<T>, f: T -> T): (r: seq<T>) { seq(|s|, i requires 0 <= i < |s| => f(s[i])) }

  /** on_cancel_outbound_delivery: allocations released, cross-dock work withdrawn, the delivery closed. */
  function CancelDelivery(bk: Book, delivery: string): Book {
    if !IsOpen(bk, delivery) then bk
    else
      var released := ReleaseAllocations(bk, delivery, |bk.allocations|);
      released.(plans := Each(released.plans, DropPlan(delivery)),
                requests := Each(released.requests, DropRequest(delivery)),
                deliveries := released.deliveries[delivery := released.deliveries[delivery].(open := false)])
  }

  // ---------------------------------------------------------------- quantities of open deliveries

  /** What no warehouse step has touched yet on a delivery line. */
  function Movable(l: Line): real { l.requested - Max(Max(l.allocatedQuantity, l.picked), Max(l.packed, l.issued)) }

  datatype Move = Move(line: string, quantity: real, newLine: string)

  /** Opens a delivery with no lines yet. */
  function OpenDelivery(bk: Book, delivery: string): Book {
    bk.(deliveries := bk.deliveries[delivery := Delivery(true, [])])
  }

  function AddLine(bk: Book, delivery: string, line: string, l: Line): Book
    requires delivery in bk.deliveries
  {
    bk.(lines := bk.lines[line := l],
        deliveries := bk.deliveries[delivery :=
          bk.deliveries[delivery].(items := bk.deliveries[delivery].items + [line])])
  }

  function TakeOff(bk: Book, line: string, quantity: real): Book {
    if line !in bk.lines then bk
    else
      var l := bk.lines[line];
      var left := l.requested - quantity;
      bk.(lines := if left <= 0.0 then bk.lines - {line} else bk.lines[line := l.(requested := left)])
  }

  function MoveLines(bk: Book, target: string, moves: seq<Move>): Book
    requires target in bk.deliveries
    decreases |moves|
  {
    if |moves| == 0 then bk
    else
      var m := moves[0];
      MoveLines(TakeOff(AddLine(bk, target, m.newLine, Line(target, m.quantity, 0.0, 0.0, 0.0, 0.0)), m.line,
          m.quantity), target, moves[1..])
  }

  /** A generated name nothing refers to yet. */
  predicate FreshDelivery(bk: Book, delivery: string) {
    delivery !in bk.deliveries && forall l :: l in bk.lines ==> bk.lines[l].delivery != delivery
  }

  predicate CanSplit(bk: Book, delivery: string, target: string, moves: seq<Move>) {
    && IsOpen(bk, delivery) && FreshDelivery(bk, target)
    && (forall i :: 0 <= i < |moves| ==> CanMove(bk, delivery, moves[i]))
    && (forall i, j :: 0 <= i < j < |moves| ==> moves[i].line != moves[j].line && moves[i].newLine != moves[j].newLine)
    && LeavesSomething(bk, delivery, moves)
  }

  function MovedOf(moves: seq<Move>, line: string): real
    decreases |moves|
  {
    if |moves| == 0 then 0.0 else if moves[0].line == line then moves[0].quantity else MovedOf(moves[1..], line)
  }

  /** Some line of the delivery keeps quantity. */
  predicate LeavesSomething(bk: Book, delivery: string, moves: seq<Move>)
    requires delivery in bk.deliveries
  {
    exists l <- bk.deliveries[delivery].items :: l in bk.lines && bk.lines[l].requested != MovedOf(moves, l)
  }

  predicate CanMove(bk: Book, delivery: string, m: Move) {
    && m.line in bk.lines && bk.lines[m.line].delivery == delivery && m.newLine !in bk.lines
    && 0.0 < m.quantity <= Movable(bk.lines[m.line])
  }

  /** split_outbound_delivery; `moves` is the request merged per line, `newLine` the names the new rows get. */
  function SplitDelivery(bk: Book, delivery: string, target: string, moves: seq<Move>): Book {
    if !CanSplit(bk, delivery, target, moves) then bk else MoveLines(OpenDelivery(bk, target), target, moves)
  }

  /** In-place part of an order reduction. */
  function ReduceLine(bk: Book, line: string, quantity: real): Book {
    if line !in bk.lines || quantity <= 0.0 then bk
    else
      var l := bk.lines[line];
      if quantity > l.requested - l.issued - l.allocatedQuantity then bk
      else bk.(lines := bk.lines[line := l.(requested := l.requested - quantity)])
  }

  /** A new delivery, nothing of it reserved yet. */
  function NewDelivery(bk: Book, delivery: string, line: string, requested: real): Book {
    if !FreshDelivery(bk, delivery) || line in bk.lines || requested <= 0.0 then bk
    else AddLine(OpenDelivery(bk, delivery), delivery, line, Line(delivery, requested, 0.0, 0.0, 0.0, 0.0))
  }

  /** A goods receipt adds to a balance. */
  function StockArrives(bk: Book, b: string, quantity: real): Book {
    if quantity <= 0.0 then bk
    else
      var before := if b in bk.balances then bk.balances[b] else Balance(0.0, 0.0, 0.0);
      var now := before.quantity + quantity;
      bk.(balances := bk.balances[b := Balance(now, before.allocatedQuantity, now - before.allocatedQuantity)])
  }

  datatype Copy = Copy(line: string, newLine: string)

  function CopyLines(bk: Book, target: string, kept: seq<Copy>): Book
    requires target in bk.deliveries
    decreases |kept|
  {
    if |kept| == 0 then bk
    else if kept[0].line !in bk.lines then CopyLines(bk, target, kept[1..])
    else CopyLines(AddLine(bk, target, kept[0].newLine, bk.lines[kept[0].line].(delivery := target)), target, kept[1..])
  }

  predicate CanRebuild(bk: Book, delivery: string, target: string, kept: seq<Copy>) {
    && IsOpen(bk, delivery) && FreshDelivery(bk, target)
    && (forall i :: 0 <= i < |kept| ==>
        kept[i].line in bk.lines && bk.lines[kept[i].line].delivery == delivery && kept[i].newLine !in bk.lines)
    && (forall i, j :: 0 <= i < j < |kept| ==> kept[i].newLine != kept[j].newLine)
  }

  /** _rebuild_without: the delivery is withdrawn and re-created with the lines it keeps, all their fields copied. */
  function RebuildDelivery(bk: Book, delivery: string, target: string, kept: seq<Copy>): Book {
    if !CanRebuild(bk, delivery, target, kept) then bk
        else CopyLines(OpenDelivery(CancelDelivery(bk, delivery), target), target, kept)
  }

  // ---------------------------------------------------------------- runs

  datatype Step =
    | DoStockArrives(balance: string, quantity: real)
    | DoNewDelivery(delivery: string, line: string, requested: real)
    | DoAllocate(delivery: string, candidates: map<string, seq<string>>)
    | DoPlanInbound(inbound: string, rows: seq<InboundRow>)
    | DoReceiveRow(inboundLine: string, quantity: real, order: seq<string>)
    | DoCancelInbound(inbound: string)
    | DoCancelDelivery(delivery: string)
    | DoSplit(delivery: string, target: string, moves: seq<Move>)
    | DoReduce(line: string, quantity: real)

  function Perform(bk: Book, step: Step): Book {
    match step
    case DoStockArrives(b, q) => StockArrives(bk, b, q)
    case DoNewDelivery(d, l, q) => NewDelivery(bk, d, l, q)
    case DoAllocate(d, candidates) => Allocate(bk, d, candidates)
    case DoPlanInbound(inbound, rows) => PlanInbound(bk, inbound, rows)
    case DoReceiveRow(inboundLine, q, order) => ReceiveRow(bk, inboundLine, q, order).0
    case DoCancelInbound(inbound) => CancelInboundPlans(bk, inbound, |bk.plans|)
    case DoCancelDelivery(d) => CancelDelivery(bk, d)
    case DoSplit(d, target, moves) => SplitDelivery(bk, d, target, moves)
    case DoReduce(l, q) => ReduceLine(bk, l, q)
  }

  function Run(bk: Book, steps: seq<Step>): Book
    decreases |steps|
  {
    if |steps| == 0 then bk else Run(Perform(bk, steps[0]), steps[1..])
  }
}
