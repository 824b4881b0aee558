/** What a receipt row, a cross-docking plan and their withdrawal do to plans, requests and delivery lines. */
module CrossDockEffects {
  import opened Basics
  import opened Sums
  import opened Sorting
  import opened Reservations
  import opened ReservationProofs

  // ---------------------------------------------------------------- shares of a quantity

  /** What a position gets when earlier ones are served first. */
  function Share<T>(s: seq<T>, wants: T -> real, quantity: real, i: nat): real
    requires i < |s|
  {
    Min(wants(s[i]), Max(quantity - Sum(s[..i], wants), 0.0))
  }

  lemma ShareOfTail<T>(s: seq<T>, wants: T -> real, quantity: real, i: nat)
    requires 0 < i < |s|
    ensures Share(s, wants, quantity, i) == Share(s[1..], wants, quantity - wants(s[0]), i - 1)
  {
    assert s[1..][..i - 1] == s[..i][1..];
    SumHead(s[..i], wants);
  }

  // ---------------------------------------------------------------- planned demand

  predicate IsPlanOf(p: Plan, row: string) { p.inboundLine == row && p.status == Planned }

  /** What a plan has still to get, if it is one of the row. */
  function StillPlanned(row: string): Plan -> real {
    (p: Plan) => if IsPlanOf(p, row) then Max(p.planned - p.consumed, 0.0) else 0.0
  }

  function Consumed(p: Plan, taken: real): Plan {
    if taken > 0.0 then p.(consumed := p.consumed + taken,
        status := if p.consumed + taken >= p.planned then Done else p.status)
    else p
  }

  function PlanRequest(p: Plan, taken: real): seq<Request> {
    if taken > 0.0 then [Request(p.delivery, p.line, taken, false)] else []
  }

  /** The requests for the shares of the plans, in their order. */
  function PlanRequests(plans: seq<Plan>, row: string, quantity: real, n: nat): seq<Request>
    requires n <= |plans|
  {
    if n == 0 then []
    else PlanRequests(plans, row, quantity, n - 1) + PlanRequest(plans[n - 1], Share(plans, StillPlanned(row), quantity,
        n - 1))
  }

  /** The plans before `n` have got their shares, and the rest of the quantity is left. */
  ghost predicate ServedUpTo(bk: Book, after: Book, row: string, quantity: real, n: nat, left: real) {
    && n <= |bk.plans| == |after.plans|
    && after == bk.(plans := after.plans, requests := after.requests)
    && (forall i :: 0 <= i < n ==> PlanIsServed(bk, after, row, quantity, i))
    && (forall i :: n <= i < |bk.plans| ==> after.plans[i] == bk.plans[i])
    && after.requests == bk.requests + PlanRequests(bk.plans, row, quantity, n)
    && left == Max(quantity - Sum(bk.plans[..n], StillPlanned(row)), 0.0)
  }

  ghost predicate PlanIsServed(bk: Book, after: Book, row: string, quantity: real, i: nat)
    requires i < |bk.plans| == |after.plans|
  {
    after.plans[i] == Consumed(bk.plans[i], Share(bk.plans, StillPlanned(row), quantity, i))
  }

  lemma NextPlan(bk: Book, row: string, quantity: real, n: nat, left: real)
    requires n < |bk.plans| && left == Max(quantity - Sum(bk.plans[..n], StillPlanned(row)), 0.0)
    ensures var share := Share(bk.plans, StillPlanned(row), quantity, n);
      && share == Min(StillPlanned(row)(bk.plans[n]), left) >= 0.0
      && left - share == Max(quantity - Sum(bk.plans[..n + 1], StillPlanned(row)), 0.0)
      && PlanRequests(bk.plans, row, quantity, n + 1) ==
          PlanRequests(bk.plans, row, quantity, n) + PlanRequest(bk.plans[n], share)
  {
    assert bk.plans[..n + 1][..n] == bk.plans[..n];
  }

  /** A plan that gets nothing. */
  lemma ServedNext(bk: Book, after: Book, row: string, quantity: real, n: nat, left: real)
    requires ServedUpTo(bk, after, row, quantity, n, left) && n < |bk.plans|
    requires StillPlanned(row)(bk.plans[n]) == 0.0 || left == 0.0
    ensures ServedUpTo(bk, after, row, quantity, n + 1, left)
  {
    NextPlan(bk, row, quantity, n, left);
    assert PlanIsServed(bk, after, row, quantity, n);
  }

  lemma ServedWith(bk: Book, after: Book, row: string, quantity: real, n: nat, left: real)
    requires ServedUpTo(bk, after, row, quantity, n, left) && n < |bk.plans| && IsPlanOf(bk.plans[n], row)
    requires Min(left, bk.plans[n].planned - bk.plans[n].consumed) > 0.0
    ensures var take := Min(left, bk.plans[n].planned - bk.plans[n].consumed);
        ServedUpTo(bk, Consume(after, n, take), row, quantity, n + 1, left - take)
  {
    NextPlan(bk, row, quantity, n, left);
    var next := Consume(after, n, Min(left, bk.plans[n].planned - bk.plans[n].consumed));
    forall i | 0 <= i < n + 1 ensures PlanIsServed(bk, next, row, quantity, i) {
      if i < n { assert PlanIsServed(bk, after, row, quantity, i); }
    }
  }

  lemma NothingMore(bk: Book, row: string, n: nat, left: real)
    requires n < |bk.plans| && !(left > 0.0 && IsPlanOf(bk.plans[n], row) &&
        Min(left, bk.plans[n].planned - bk.plans[n].consumed) > 0.0)
    ensures ConsumePlans(bk, row, n, left) == ConsumePlans(bk, row, n + 1, left)
  {
  }

  lemma PlanTurn(bk: Book, after: Book, row: string, quantity: real, n: nat,
        left: real) returns (next: Book, more: real)
    requires ServedUpTo(bk, after, row, quantity, n, left) && n < |bk.plans|
    ensures ServedUpTo(bk, next, row, quantity, n + 1, more)
    ensures ConsumePlans(after, row, n, left) == ConsumePlans(next, row, n + 1, more)
  {
    var p := after.plans[n];
    var take := Min(left, p.planned - p.consumed);
    if left > 0.0 && IsPlanOf(p, row) && take > 0.0 {
      ServedWith(bk, after, row, quantity, n, left);
      next, more := Consume(after, n, take), left - take;
    } else {
      ServedNext(bk, after, row, quantity, n, left);
      NothingMore(after, row, n, left);
      next, more := after, left;
    }
  }

  lemma {:induction false} ServedToTheEnd(bk: Book, after: Book, row: string, quantity: real, n: nat, left: real)
    requires ServedUpTo(bk, after, row, quantity, n, left)
    ensures var (last, rest) := ConsumePlans(after, row, n, left);
        ServedUpTo(bk, last, row, quantity, |bk.plans|, rest)
    decreases |bk.plans| - n
  {
    if n < |bk.plans| {
      var next, more := PlanTurn(bk, after, row, quantity, n, left);
      ServedToTheEnd(bk, next, row, quantity, n + 1, more);
    }
  }

  /** A receipt row takes from its own row's plans, the earliest first, and raises a request for each share; no other
      plan moves. */
  lemma ReceiptTakesOwnPlans(bk: Book, row: string, quantity: real)
    requires quantity >= 0.0
    ensures var (after, left) := ConsumePlans(bk, row, 0, quantity);
        ServedUpTo(bk, after, row, quantity, |bk.plans|, left)
    ensures forall i :: 0 <= i < |bk.plans| && !IsPlanOf(bk.plans[i], row) ==>
        ConsumePlans(bk, row, 0, quantity).0.plans[i] == bk.plans[i]
  {
    assert bk.plans[..0] == [];
    ServedToTheEnd(bk, bk, row, quantity, 0, quantity);
    var after := ConsumePlans(bk, row, 0, quantity).0;
    forall i | 0 <= i < |bk.plans| && !IsPlanOf(bk.plans[i], row) ensures after.plans[i] == bk.plans[i] {
      assert PlanIsServed(bk, after, row, quantity, i);
    }
  }

  // ---------------------------------------------------------------- open demand

  /** What a delivery line still wants, if its delivery is open. */
  function Wants(bk: Book): string -> real {
    (l: string) => if l in bk.lines && IsOpen(bk, bk.lines[l].delivery)
        then Max(bk.lines[l].requested - bk.lines[l].allocatedQuantity, 0.0) else 0.0
  }

  function ShareMatch(line: string, share: real): seq<Match> { if share > 0.0 then [Match(line, share)] else [] }

  /** The shares of the lines, in the order of the query. */
  function SharesOf(order: seq<string>, wants: string -> real, quantity: real, n: nat): seq<Match>
    requires n <= |order|
  {
    if n == 0 then []
    else SharesOf(order, wants, quantity, n - 1) + ShareMatch(order[n - 1], Share(order, wants, quantity, n - 1))
  }

  lemma {:induction false} SharesOfTail(order: seq<string>, wants: string -> real, quantity: real, n: nat)
    requires 0 < n <= |order|
    ensures SharesOf(order, wants, quantity, n) == ShareMatch(order[0], Share(order, wants, quantity, 0)) +
        SharesOf(order[1..], wants, quantity - wants(order[0]), n - 1)
  {
    if n > 1 {
      SharesOfTail(order, wants, quantity, n - 1);
      ShareOfTail(order, wants, quantity, n - 1);
      assert order[1..][n - 2] == order[n - 1];
    }
  }

  lemma {:induction false} NoSharesOfNothing(order: seq<string>, wants: string -> real, quantity: real, n: nat)
    requires n <= |order| && quantity <= 0.0 && forall l :: wants(l) >= 0.0
    ensures SharesOf(order, wants, quantity, n) == []
  {
    if n > 0 {
      NoSharesOfNothing(order, wants, quantity, n - 1);
      SumNonNegative(order[..n - 1], wants);
    }
  }

  lemma FirstDemand(bk: Book, order: seq<string>, quantity: real)
    requires |order| > 0 && quantity > 0.0
    ensures var wanted := Wants(bk)(order[0]);
      FindDemand(bk, order, quantity) ==
        ShareMatch(order[0], Min(wanted, quantity)) + FindDemand(bk, order[1..], Max(quantity - wanted, 0.0))
  {
    if StillWants(bk)(order[0]) {
      assert OpenDemand(bk, order)[1..] == OpenDemand(bk, order[1..]);
    } else {
      assert OpenDemand(bk, order) == OpenDemand(bk, order[1..]);
    }
  }

  lemma FirstShare(order: seq<string>, wants: string -> real, quantity: real)
    requires |order| > 0
    ensures SharesOf(order, wants, quantity, |order|) == ShareMatch(order[0], Min(wants(order[0]), quantity)) +
        SharesOf(order[1..], wants, quantity - wants(order[0]), |order[1..]|)
  {
    SharesOfTail(order, wants, quantity, |order|);
    assert order[..0] == [];
  }

  lemma {:induction false} DemandIsShared(bk: Book, order: seq<string>, quantity: real)
    ensures FindDemand(bk, order, Max(quantity, 0.0)) == SharesOf(order, Wants(bk), quantity, |order|)
    decreases |order|
  {
    if quantity <= 0.0 {
      NoSharesOfNothing(order, Wants(bk), quantity, |order|);
    } else if |order| > 0 {
      FirstDemand(bk, order, quantity);
      DemandIsShared(bk, order[1..], quantity - Wants(bk)(order[0]));
      FirstShare(order, Wants(bk), quantity);
    }
  }

  function MatchOn(l: string): Match -> real { (m: Match) => if m.line == l then m.quantity else 0.0 }

  lemma SumOfShare(line: string, share: real, f: Match -> real)
    ensures Sum(ShareMatch(line, share), f) == if share > 0.0 then f(Match(line, share)) else 0.0
  {
    var ms := ShareMatch(line, share);
    if share > 0.0 { assert ms[..0] == [] && ms[0] == Match(line, share); }
  }

  lemma NextShareOnLine(order: seq<string>, wants: string -> real, quantity: real, n: nat, l: string)
    requires 0 < n <= |order|
    ensures Sum(SharesOf(order, wants, quantity, n), MatchOn(l)) ==
        Sum(SharesOf(order, wants, quantity, n - 1), MatchOn(l)) +
        if order[n - 1] == l then Max(Share(order, wants, quantity, n - 1), 0.0) else 0.0
  {
    var share := Share(order, wants, quantity, n - 1);
    SumConcat(SharesOf(order, wants, quantity, n - 1), ShareMatch(order[n - 1], share), MatchOn(l));
    SumOfShare(order[n - 1], share, MatchOn(l));
  }

  lemma {:induction false} SharesOnLine(order: seq<string>, wants: string -> real, quantity: real, n: nat, l: string)
    requires n <= |order| && l !in order[..n]
    ensures Sum(SharesOf(order, wants, quantity, n), MatchOn(l)) == 0.0
  {
    if n > 0 {
      assert order[n - 1] in order[..n];
      forall x | x in order[..n - 1] ensures x in order[..n] {}
      SharesOnLine(order, wants, quantity, n - 1, l);
      NextShareOnLine(order, wants, quantity, n, l);
    }
  }

  lemma {:induction false} ShareOnLine(order: seq<string>, wants: string -> real, quantity: real, n: nat, i: nat)
    requires i < n <= |order| && NoDuplicates(order)
    ensures Sum(SharesOf(order, wants, quantity, n), MatchOn(order[i])) ==
        Max(Share(order, wants, quantity, i), 0.0)
  {
    NextShareOnLine(order, wants, quantity, n, order[i]);
    if i == n - 1 {
      SharesOnLine(order, wants, quantity, n - 1, order[i]);
    } else {
      ShareOnLine(order, wants, quantity, n - 1, i);
    }
  }

  lemma {:induction false} SharesAddUp(order: seq<string>, wants: string -> real, quantity: real, n: nat)
    requires n <= |order| && quantity >= 0.0 && forall l :: wants(l) >= 0.0
    ensures Sum(SharesOf(order, wants, quantity, n), MatchedQuantity()) == Min(quantity, Sum(order[..n], wants))
  {
    if n > 0 {
      var share := Share(order, wants, quantity, n - 1);
      SharesAddUp(order, wants, quantity, n - 1);
      SumConcat(SharesOf(order, wants, quantity, n - 1), ShareMatch(order[n - 1], share), MatchedQuantity());
      SumOfShare(order[n - 1], share, MatchedQuantity());
      assert order[..n][..n - 1] == order[..n - 1];
    }
  }

  // ---------------------------------------------------------------- routing

  ghost predicate LineIsRouted(bk: Book, after: Book, ms: seq<Match>, l: string) {
    && l in bk.lines && l in after.lines
    && after.lines[l] ==
        bk.lines[l].(allocatedQuantity := bk.lines[l].allocatedQuantity + Sum(ms, MatchOn(l)))
  }

  function Asks(bk: Book, ms: seq<Match>): (r: seq<Request>)
    ensures |r| == |ms|
  {
    seq(|ms|, i requires 0 <= i < |ms| => Request(DeliveryOf(bk, ms[i].line), ms[i].line, ms[i].quantity, false))
  }

  /** Every match is claimed on its line, and a request raised for it. */
  ghost predicate Routed(bk: Book, after: Book, ms: seq<Match>) {
    && after == bk.(lines := after.lines, requests := after.requests)
    && after.lines.Keys == bk.lines.Keys
    && (forall l <- bk.lines.Keys :: LineIsRouted(bk, after, ms, l))
    && after.requests == bk.requests + Asks(bk, ms)
  }

  lemma {:induction false} MatchesAreRouted(bk: Book, ms: seq<Match>)
    requires forall m <- ms :: m.line in bk.lines
    ensures Routed(bk, RouteMatches(bk, ms), ms)
    decreases |ms|
  {
    if |ms| > 0 {
      var next := RaiseRequest(Reserve(bk, ms[0]), ms[0]);
      MatchesAreRouted(next, ms[1..]);
      RoutedInTurn(bk, next, RouteMatches(bk, ms), ms);
    } else {
      assert bk.requests + Asks(bk, ms) == bk.requests;
    }
  }

  lemma AsksInTurn(bk: Book, next: Book, ms: seq<Match>)
    requires |ms| > 0 && forall l :: DeliveryOf(next, l) == DeliveryOf(bk, l)
    ensures Asks(bk, ms) == [Request(DeliveryOf(bk, ms[0].line), ms[0].line, ms[0].quantity, false)] +
        Asks(next, ms[1..])
  {
  }

  lemma LineInTurn(bk: Book, next: Book, after: Book, ms: seq<Match>, l: string)
    requires |ms| > 0 && ms[0].line in bk.lines && next == RaiseRequest(Reserve(bk, ms[0]), ms[0])
    requires l in bk.lines && LineIsRouted(next, after, ms[1..], l)
    ensures LineIsRouted(bk, after, ms, l)
  {
    SumHead(ms, MatchOn(l));
  }

  lemma SameDeliveries(bk: Book, m: Match)
    ensures forall l :: DeliveryOf(RaiseRequest(Reserve(bk, m), m), l) == DeliveryOf(bk, l)
  {
  }

  lemma RoutedInTurn(bk: Book, next: Book, after: Book, ms: seq<Match>)
    requires |ms| > 0 && ms[0].line in bk.lines && next == RaiseRequest(Reserve(bk, ms[0]), ms[0])
    requires Routed(next, after, ms[1..])
    ensures Routed(bk, after, ms)
  {
    forall l | l in bk.lines.Keys ensures LineIsRouted(bk, after, ms, l) { LineInTurn(bk, next, after, ms, l); }
    SameDeliveries(bk, ms[0]);
    AsksInTurn(bk, next, ms);
    assert after.requests == bk.requests + ([Asks(bk, ms)[0]] + Asks(next, ms[1..]));
  }

  lemma {:induction false} SharesAreOfLines(bk: Book, order: seq<string>, quantity: real, n: nat)
    requires n <= |order|
    ensures forall m <- SharesOf(order, Wants(bk), quantity, n) :: m.line in bk.lines && m.quantity > 0.0
  {
    if n > 0 { SharesAreOfLines(bk, order, quantity, n - 1); }
  }

  // ---------------------------------------------------------------- a receipt row

  lemma {:induction false} SameShares(order: seq<string>, f: string -> real, g: string -> real, quantity: real, n: nat)
    requires n <= |order| && forall l :: f(l) == g(l)
    ensures SharesOf(order, f, quantity, n) == SharesOf(order, g, quantity, n)
  {
    if n > 0 {
      SameShares(order, f, g, quantity, n - 1);
      SumAgree(order[..n - 1], order[..n - 1], f, g);
    }
  }

  /** Where only plans and requests differ, the open demand is the same. */
  lemma SameDemand(bk: Book, mid: Book, order: seq<string>, quantity: real)
    requires mid == bk.(plans := mid.plans, requests := mid.requests) && quantity >= 0.0
    ensures FindDemand(mid, order, quantity) == SharesOf(order, Wants(bk), quantity, |order|)
  {
    DemandIsShared(mid, order, quantity);
    SameShares(order, Wants(mid), Wants(bk), quantity, |order|);
  }

  lemma RoutedFrom(bk: Book, mid: Book, after: Book, ms: seq<Match>)
    requires mid == bk.(plans := mid.plans, requests := mid.requests) && Routed(mid, after, ms)
    ensures after == bk.(plans := mid.plans, requests := after.requests, lines := after.lines)
    ensures after.lines.Keys == bk.lines.Keys && forall l <- bk.lines.Keys :: LineIsRouted(bk, after, ms, l)
    ensures after.requests == mid.requests + Asks(bk, ms)
  {
    forall l | l in bk.lines.Keys ensures LineIsRouted(bk, after, ms, l) { assert LineIsRouted(mid, after, ms, l); }
    assert Asks(mid, ms) == Asks(bk, ms);
  }

  /** What a receipt row does, told from the state before. */
  ghost predicate IsReceived(bk: Book, after: Book, row: string, quantity: real, shares: seq<Match>) {
    && after == bk.(plans := after.plans, requests := after.requests, lines := after.lines)
    && |after.plans| == |bk.plans|
    && (forall i :: 0 <= i < |bk.plans| ==> PlanIsServed(bk, after, row, quantity, i))
    && after.requests == bk.requests + PlanRequests(bk.plans, row, quantity, |bk.plans|) + Asks(bk, shares)
    && after.lines.Keys == bk.lines.Keys && (forall l <- bk.lines.Keys :: LineIsRouted(bk, after, shares, l))
  }

  lemma ReceivedBy(bk: Book, mid: Book, after: Book, row: string, quantity: real, left: real, shares: seq<Match>)
    requires ServedUpTo(bk, mid, row, quantity, |bk.plans|, left) && Routed(mid, after, shares)
    ensures IsReceived(bk, after, row, quantity, shares)
  {
    RoutedFrom(bk, mid, after, shares);
    forall i | 0 <= i < |bk.plans| ensures PlanIsServed(bk, after, row, quantity, i) {
      assert PlanIsServed(bk, mid, row, quantity, i);
    }
  }

  /** The open demand's shares of a quantity. */
  function SharesLeft(bk: Book, order: seq<string>, left: real): seq<Match> {
    SharesOf(order, Wants(bk), left, |order|)
  }

  lemma SharesSpend(bk: Book, order: seq<string>, left: real)
    requires left >= 0.0
    ensures Sum(SharesLeft(bk, order, left), MatchedQuantity()) == Min(left, Sum(order, Wants(bk)))
  {
    SharesAddUp(order, Wants(bk), left, |order|);
    assert order[..|order|] == order;
  }

  /** What the open demand takes of what is left. */
  lemma DemandTakes(bk: Book, mid: Book, order: seq<string>, left: real)
    requires mid == bk.(plans := mid.plans, requests := mid.requests) && left >= 0.0
    ensures FindDemand(mid, order, left) == SharesLeft(bk, order, left)
    ensures Routed(mid, RouteMatches(mid, SharesLeft(bk, order, left)), SharesLeft(bk, order, left))
  {
    SameDemand(bk, mid, order, left);
    SharesAreOfLines(bk, order, left, |order|);
    MatchesAreRouted(mid, SharesLeft(bk, order, left));
  }

  function LeftOf(bk: Book, row: string, quantity: real): real {
    Max(quantity - Sum(bk.plans, StillPlanned(row)), 0.0)
  }

  lemma ConsumedFirst(bk: Book, row: string, quantity: real)
    requires quantity >= 0.0
    ensures var (mid, left) := ConsumePlans(bk, row, 0, quantity);
        ServedUpTo(bk, mid, row, quantity, |bk.plans|, left) && left == LeftOf(bk, row, quantity) >= 0.0
  {
    ReceiptTakesOwnPlans(bk, row, quantity);
    assert bk.plans[..|bk.plans|] == bk.plans;
  }

  /** What the open demand gets of what the plans leave. */
  function DemandShares(bk: Book, row: string, quantity: real, order: seq<string>): seq<Match> {
    SharesLeft(bk, order, LeftOf(bk, row, quantity))
  }

  lemma ReceivedInTwo(bk: Book, row: string, quantity: real, order: seq<string>) returns (mid: Book)
    requires quantity >= 0.0
    ensures ServedUpTo(bk, mid, row, quantity, |bk.plans|, LeftOf(bk, row, quantity))
    ensures Routed(mid, ReceiveRow(bk, row, quantity, order).0, DemandShares(bk, row, quantity, order))
    ensures ReceiveRow(bk, row, quantity, order).1 == Max(LeftOf(bk, row, quantity) - Sum(order, Wants(bk)), 0.0)
  {
    var (consumed, left) := ConsumePlans(bk, row, 0, quantity);
    ConsumedFirst(bk, row, quantity);
    DemandTakes(bk, consumed, order, left);
    SharesSpend(bk, order, left);
    mid := consumed;
  }

  /** A receipt row's own plans are consumed first, the open demand is served next, each in its order, and what is left
      is put away. */
  lemma ReceiptIsRouted(bk: Book, row: string, quantity: real, order: seq<string>)
    requires quantity >= 0.0
    ensures IsReceived(bk, ReceiveRow(bk, row, quantity, order).0, row, quantity,
        DemandShares(bk, row, quantity, order))
    ensures ReceiveRow(bk, row, quantity, order).1 == Max(LeftOf(bk, row, quantity) - Sum(order, Wants(bk)), 0.0)
  {
    var mid := ReceivedInTwo(bk, row, quantity, order);
    var after, left := ReceiveRow(bk, row, quantity, order).0, LeftOf(bk, row, quantity);
    ReceivedBy(bk, mid, after, row, quantity, left, DemandShares(bk, row, quantity, order));
  }

  /** Each line of the open demand gains its share, earlier ones first; no other line moves. */
  lemma ReceiptCreditsInTurn(bk: Book, row: string, quantity: real, order: seq<string>, l: string)
    requires quantity >= 0.0 && NoDuplicates(order) && l in bk.lines
    ensures l in ReceiveRow(bk, row, quantity, order).0.lines
    ensures var gained := ReceiveRow(bk, row, quantity, order).0.lines[l].allocatedQuantity -
          bk.lines[l].allocatedQuantity;
      && (forall i :: 0 <= i < |order| && order[i] == l ==>
          gained == Max(Share(order, Wants(bk), LeftOf(bk, row, quantity), i), 0.0))
      && (l !in order ==> gained == 0.0)
  {
    ReceiptIsRouted(bk, row, quantity, order);
    var after, left := ReceiveRow(bk, row, quantity, order).0, LeftOf(bk, row, quantity);
    assert LineIsRouted(bk, after, DemandShares(bk, row, quantity, order), l);
    if i :| 0 <= i < |order| && order[i] == l {
      ShareOnLine(order, Wants(bk), left, |order|, i);
    } else {
      assert order[..|order|] == order;
      SharesOnLine(order, Wants(bk), left, |order|, l);
    }
  }

  // ---------------------------------------------------------------- nothing is lost

  function Asked(): Request -> real { (r: Request) => r.quantity }

  lemma SumOfAsk(p: Plan, share: real)
    ensures Sum(PlanRequest(p, share), Asked()) == Max(share, 0.0)
  {
    var asked := PlanRequest(p, share);
    if share > 0.0 { assert asked[..0] == []; }
  }

  lemma {:induction false} PlanRequestsAddUp(plans: seq<Plan>, row: string, quantity: real, n: nat)
    requires n <= |plans| && quantity >= 0.0
    ensures Sum(PlanRequests(plans, row, quantity, n), Asked()) == Min(quantity, Sum(plans[..n], StillPlanned(row)))
  {
    if n > 0 {
      var share := Share(plans, StillPlanned(row), quantity, n - 1);
      PlanRequestsAddUp(plans, row, quantity, n - 1);
      SumConcat(PlanRequests(plans, row, quantity, n - 1), PlanRequest(plans[n - 1], share), Asked());
      SumOfAsk(plans[n - 1], share);
      assert plans[..n][..n - 1] == plans[..n - 1];
      assert plans[..n][n - 1] == plans[n - 1];
    }
  }

  lemma AsksAddUp(bk: Book, row: string, quantity: real, order: seq<string>)
    ensures Sum(Asks(bk, DemandShares(bk, row, quantity, order)), Asked()) ==
        Min(LeftOf(bk, row, quantity), Sum(order, Wants(bk)))
  {
    var shares := DemandShares(bk, row, quantity, order);
    SumAgree(Asks(bk, shares), shares, Asked(), MatchedQuantity());
    SharesSpend(bk, order, LeftOf(bk, row, quantity));
  }

  /** Every unit received is asked for by a request or put away. */
  lemma ReceiptIsSpentExactly(bk: Book, row: string, quantity: real, order: seq<string>)
    requires quantity >= 0.0
    ensures var (after, putaway) := ReceiveRow(bk, row, quantity, order);
      bk.requests <= after.requests && putaway >= 0.0 &&
          Sum(after.requests[|bk.requests|..], Asked()) + putaway == quantity
  {
    var after := ReceiveRow(bk, row, quantity, order).0;
    var first := PlanRequests(bk.plans, row, quantity, |bk.plans|);
    var second := Asks(bk, DemandShares(bk, row, quantity, order));
    ReceiptIsRouted(bk, row, quantity, order);
    assert after.requests == bk.requests + (first + second);
    SumConcat(first, second, Asked());
    PlanRequestsAddUp(bk.plans, row, quantity, |bk.plans|);
    assert bk.plans[..|bk.plans|] == bk.plans;
    AsksAddUp(bk, row, quantity, order);
  }
}
