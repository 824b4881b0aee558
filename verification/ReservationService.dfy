/** The services that change the book step by step, each proved to do what its specification in Reservations says. */
module ReservationService {
  import opened Basics
  import opened Sums
  import opened Sorting
  import opened Reservations

  class ReservationBook {
    var balances: map<string, Balance>
    var deliveries: map<string, Delivery>
    var lines: map<string, Line>
    var allocations: seq<Allocation>
    var plans: seq<Plan>
    var requests: seq<Request>

    ghost function State(): Book
      reads this
    {
      Book(balances, deliveries, lines, allocations, plans, requests)
    }

    constructor ()
      ensures State() == Book(map[], map[], map[], [], [], [])
    {
      balances, deliveries, lines := map[], map[], map[];
      allocations, plans, requests := [], [], [];
    }

    predicate DeliveryIsOpen(delivery: string)
      reads this
    {
      delivery in deliveries && deliveries[delivery].open
    }

    method AllocateDelivery(delivery: string, candidates: map<string, seq<string>>)
      modifies this
      ensures State() == Allocate(old(State()), delivery, candidates)
    {
      if !DeliveryIsOpen(delivery) { return; }
      var items := deliveries[delivery].items;
      for n := 0 to |items|
        invariant AllocateLines(old(State()), delivery, items, candidates) ==
            AllocateLines(State(), delivery, items[n..], candidates)
      {
        assert items[n..][0] == items[n] && items[n..][1..] == items[n + 1..];
        AllocateOneLine(delivery, items[n], CandidatesOf(candidates, items[n]));
      }
    }

    method AllocateOneLine(delivery: string, line: string, candidates: seq<string>)
      modifies this
      ensures State() == AllocateLine(old(State()), delivery, line, candidates)
    {
      if line !in lines || lines[line].delivery != delivery { return; }
      var row := lines[line];
      var needed := row.requested - row.allocatedQuantity;
      ghost var start := needed;
      var n := 0;
      while n < |candidates| && needed > 0.0
        invariant 0 <= n <= |candidates|
        invariant DrawDown(old(State()), delivery, line, candidates, start) ==
            DrawDown(State(), delivery, line, candidates[n..], needed)
      {
        var b := candidates[n];
        assert candidates[n..][0] == b && candidates[n..][1..] == candidates[n + 1..];
        if b in balances && balances[b].available > 0.0 {
          var balance := balances[b];
          var taken := Min(needed, balance.available);
          allocations := allocations + [Allocation(delivery, line, b, taken, false)];
          balances := balances[b := balance.(allocatedQuantity := balance.allocatedQuantity + taken,
              available := balance.available - taken)];
          needed := needed - taken;
        }
        n := n + 1;
      }
      assert DrawDown(State(), delivery, line, candidates[n..], needed) == (State(), needed);
      lines := lines[line := row.(allocatedQuantity := row.requested - needed)];
    }

    method CancelAllocationsForDelivery(delivery: string)
      modifies this
      ensures State() == ReleaseAllocations(old(State()), delivery, |old(allocations)|)
    {
      var all := |allocations|;
      for n := 0 to all
        invariant |allocations| == all
        invariant State() == ReleaseAllocations(old(State()), delivery, n)
      {
        var a := allocations[n];
        if a.delivery == delivery && !a.cancelled {
          if a.balance in balances {
            var balance := balances[a.balance];
            var kept := Max(balance.allocatedQuantity - a.quantity, 0.0);
            balances := balances[a.balance := balance.(allocatedQuantity := kept,
                available := balance.quantity - kept)];
          }
          allocations := allocations[n := a.(cancelled := true)];
        }
      }
    }

    method FindCrossDockDemand(order: seq<string>, quantity: real) returns (matched: seq<Match>)
      ensures matched == FindDemand(State(), order, quantity)
    {
      matched := MatchRows(OpenDemand(Book(balances, deliveries, lines, allocations, plans, requests), order),
          quantity);
    }

    method MatchRows(rows: seq<string>, quantity: real) returns (matched: seq<Match>)
      ensures matched == Matches(lines, rows, quantity)
    {
      matched := [];
      var remaining, n := quantity, 0;
      while n < |rows| && remaining > 0.0
        invariant 0 <= n <= |rows|
        invariant Matches(lines, rows, quantity) == matched + Matches(lines, rows[n..], remaining)
      {
        var take := Min(remaining, Outstanding(lines, rows[n]));
        NextMatch(lines, rows, n, remaining, matched);
        if take > 0.0 {
          matched := matched + [Match(rows[n], take)];
          remaining := remaining - take;
        }
        n := n + 1;
      }
    }

    static lemma NextMatch(lines: map<string, Line>, rows: seq<string>, n: nat, remaining: real, matched: seq<Match>)
      requires n < |rows| && remaining > 0.0
      ensures var take := Min(remaining, Outstanding(lines, rows[n]));
        matched + Matches(lines, rows[n..], remaining)
        == if take > 0.0 then (matched + [Match(rows[n], take)]) + Matches(lines, rows[n + 1..], remaining - take)
           else matched + Matches(lines, rows[n + 1..], remaining)
    {
      assert rows[n..][0] == rows[n] && rows[n..][1..] == rows[n + 1..];
    }

    method ReserveCrossDockDemand(m: Match)
      modifies this
      ensures State() == Reserve(old(State()), m)
    {
      if m.line in lines {
        var l := lines[m.line];
        lines := lines[m.line := l.(allocatedQuantity := l.allocatedQuantity + m.quantity)];
      }
    }

    method PlanCrossDock(inbound: string, rows: seq<InboundRow>)
      modifies this
      ensures State() == PlanInbound(old(State()), inbound, rows)
    {
      for n := 0 to |rows|
        invariant PlanInbound(old(State()), inbound, rows) == PlanInbound(State(), inbound, rows[n..])
      {
        assert rows[n..][0] == rows[n] && rows[n..][1..] == rows[n + 1..];
        var openQuantity := rows[n].expected - rows[n].received - Sum(plans, PlannedFor(rows[n].line));
        if openQuantity > 0.0 {
          var matches := FindCrossDockDemand(rows[n].order, openQuantity);
          PlanTheMatches(inbound, rows[n].line, matches);
        }
      }
    }

    method PlanTheMatches(inbound: string, inboundLine: string, matches: seq<Match>)
      modifies this
      ensures State() == PlanMatches(old(State()), inbound, inboundLine, matches)
    {
      for n := 0 to |matches|
        invariant PlanMatches(old(State()), inbound, inboundLine, matches) ==
            PlanMatches(State(), inbound, inboundLine, matches[n..])
      {
        var m := matches[n];
        assert matches[n..][0] == m && matches[n..][1..] == matches[n + 1..];
        var delivery := if m.line in lines then lines[m.line].delivery else "";
        ReserveCrossDockDemand(m);
        plans := plans + [Plan(inbound, inboundLine, delivery, m.line, m.quantity, 0.0, Planned)];
      }
    }

    /** planned_matches and consume_plan for one receipt row; answers what is left of the quantity. */
    method ConsumePlannedMatches(inboundLine: string, quantity: real) returns (left: real)
      modifies this
      ensures (State(), left) == ConsumePlans(old(State()), inboundLine, 0, quantity)
    {
      left := quantity;
      var n := 0;
      while n < |plans| && left > 0.0
        invariant 0 <= n <= |plans|
        invariant ConsumePlans(old(State()), inboundLine, 0, quantity) == ConsumePlans(State(), inboundLine, n, left)
        decreases |plans| - n
      {
        var p := plans[n];
        var take := Min(left, p.planned - p.consumed);
        if p.inboundLine == inboundLine && p.status == Planned && take > 0.0 {
          var consumed := p.consumed + take;
          requests := requests + [Request(p.delivery, p.line, take, false)];
          plans := plans[n := p.(consumed := consumed, status := if consumed >= p.planned then Done else Planned)];
          left := left - take;
        }
        n := n + 1;
      }
    }

    method RouteReceivedRow(inboundLine: string, quantity: real, order: seq<string>) returns (putaway: real)
      modifies this
      ensures (State(), putaway) == ReceiveRow(old(State()), inboundLine, quantity, order)
    {
      var left := ConsumePlannedMatches(inboundLine, quantity);
      var matches := FindCrossDockDemand(order, left);
      ghost var before := State();
      putaway := left;
      for n := 0 to |matches|
        invariant RouteMatches(before, matches) == RouteMatches(State(), matches[n..])
        invariant putaway == left - Sum(matches[..n], MatchedQuantity())
      {
        var m := matches[n];
        assert matches[n..][0] == m && matches[n..][1..] == matches[n + 1..];
        assert matches[..n + 1][..n] == matches[..n];
        ReserveCrossDockDemand(m);
        var delivery := if m.line in lines then lines[m.line].delivery else "";
        requests := requests + [Request(delivery, m.line, m.quantity, false)];
        putaway := putaway - m.quantity;
      }
      assert matches[..|matches|] == matches;
    }

    method CancelCrossDockPlan(inbound: string)
      modifies this
      ensures State() == CancelInboundPlans(old(State()), inbound, |old(plans)|)
    {
      var all := |plans|;
      for n := 0 to all
        invariant |plans| == all
        invariant State() == CancelInboundPlans(old(State()), inbound, n)
      {
        var p := plans[n];
        if p.inbound == inbound && p.status == Planned {
          var openQuantity := p.planned - p.consumed;
          if openQuantity > 0.0 && p.line in lines {
            var l := lines[p.line];
            lines := lines[p.line := l.(allocatedQuantity := Max(l.allocatedQuantity - openQuantity, 0.0))];
          }
          plans := plans[n := p.(status := Cancelled)];
        }
      }
    }

    method CancelOutboundDelivery(delivery: string)
      modifies this
      ensures State() == CancelDelivery(old(State()), delivery)
    {
      if !DeliveryIsOpen(delivery) { return; }
      CancelAllocationsForDelivery(delivery);
      plans := Each(plans, DropPlan(delivery));
      requests := Each(requests, DropRequest(delivery));
      deliveries := deliveries[delivery := deliveries[delivery].(open := false)];
    }

    method SplitOutboundDelivery(delivery: string, target: string, moves: seq<Move>)
      modifies this
      ensures State() == SplitDelivery(old(State()), delivery, target, moves)
    {
      if !CanSplit(Book(balances, deliveries, lines, allocations, plans, requests), delivery, target, moves) { return; }
      deliveries := deliveries[target := Delivery(true, [])];
      ghost var begun := State();
      for n := 0 to |moves|
        invariant target in deliveries
        invariant MoveLines(begun, target, moves) == MoveLines(State(), target, moves[n..])
      {
        var m := moves[n];
        assert moves[n..][0] == m && moves[n..][1..] == moves[n + 1..];
        MoveOneLine(target, m);
      }
    }

    method MoveOneLine(target: string, m: Move)
      requires target in deliveries
      modifies this
      ensures State() == TakeOff(AddLine(old(State()), target, m.newLine, Line(target, m.quantity, 0.0, 0.0, 0.0, 0.0)),
          m.line, m.quantity)
    {
      lines := lines[m.newLine := Line(target, m.quantity, 0.0, 0.0, 0.0, 0.0)];
      deliveries := deliveries[target := deliveries[target].(items := deliveries[target].items + [m.newLine])];
      if m.line in lines {
        var left := lines[m.line].requested - m.quantity;
        if left <= 0.0 {
          lines := lines - {m.line};
        } else {
          lines := lines[m.line := lines[m.line].(requested := left)];
        }
      }
    }
  }
}
