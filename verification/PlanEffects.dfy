/** What planning and withdrawing cross-docking do to plans and delivery lines. */
module PlanEffects {
  import opened Basics
  import opened Sums
  import opened Sorting
  import opened Reservations
  import opened ReservationProofs
  import opened CrossDockEffects

  // ---------------------------------------------------------------- planning one row

  function NewPlans(bk: Book, inbound: string, row: string, ms: seq<Match>): (r: seq<Plan>)
    ensures |r| == |ms|
  {
    seq(|ms|, i requires 0 <= i < |ms| =>
      Plan(inbound, row, DeliveryOf(bk, ms[i].line), ms[i].line, ms[i].quantity, 0.0, Planned))
  }

  /** Every match is claimed on its line, and planned for. */
  ghost predicate PlannedAs(bk: Book, after: Book, inbound: string, row: string, ms: seq<Match>) {
    && after == bk.(lines := after.lines, plans := after.plans)
    && after.lines.Keys == bk.lines.Keys
    && (forall l <- bk.lines.Keys :: LineIsRouted(bk, after, ms, l))
    && after.plans == bk.plans + NewPlans(bk, inbound, row, ms)
  }

  /** One match, planned for. */
  function PlanOne(bk: Book, inbound: string, row: string, m: Match): Book {
    Reserve(bk, m).(plans := bk.plans + [Plan(inbound, row, DeliveryOf(bk, m.line), m.line, m.quantity, 0.0, Planned)])
  }

  lemma PlansInTurn(bk: Book, next: Book, inbound: string, row: string, ms: seq<Match>)
    requires |ms| > 0 && forall l :: DeliveryOf(next, l) == DeliveryOf(bk, l)
    ensures NewPlans(bk, inbound, row, ms) ==
        [NewPlans(bk, inbound, row, ms)[0]] + NewPlans(next, inbound, row, ms[1..])
  {
  }

  lemma PlannedLineInTurn(bk: Book, after: Book, inbound: string, row: string, ms: seq<Match>, l: string)
    requires |ms| > 0 && ms[0].line in bk.lines
    requires l in bk.lines && LineIsRouted(PlanOne(bk, inbound, row, ms[0]), after, ms[1..], l)
    ensures LineIsRouted(bk, after, ms, l)
  {
    SumHead(ms, MatchOn(l));
  }

  lemma PlannedInTurn(bk: Book, after: Book, inbound: string, row: string, ms: seq<Match>)
    requires |ms| > 0 && ms[0].line in bk.lines
    requires PlannedAs(PlanOne(bk, inbound, row, ms[0]), after, inbound, row, ms[1..])
    ensures PlannedAs(bk, after, inbound, row, ms)
  {
    forall l | l in bk.lines.Keys ensures LineIsRouted(bk, after, ms, l) {
      PlannedLineInTurn(bk, after, inbound, row, ms, l);
    }
    PlansInTurn(bk, PlanOne(bk, inbound, row, ms[0]), inbound, row, ms);
  }

  lemma {:induction false} MatchesArePlanned(bk: Book, inbound: string, row: string, ms: seq<Match>)
    requires forall m <- ms :: m.line in bk.lines
    ensures PlannedAs(bk, PlanMatches(bk, inbound, row, ms), inbound, row, ms)
    decreases |ms|
  {
    if |ms| > 0 {
      MatchesArePlanned(PlanOne(bk, inbound, row, ms[0]), inbound, row, ms[1..]);
      PlannedInTurn(bk, PlanMatches(bk, inbound, row, ms), inbound, row, ms);
    } else {
      assert bk.plans + NewPlans(bk, inbound, row, ms) == bk.plans;
    }
  }

  /** Plans are never consumed beyond what they plan. */
  ghost predicate WithinPlan(plans: seq<Plan>) { forall p <- plans :: p.status == Planned ==> p.consumed <= p.planned }

  lemma {:induction false} SamePlanned(plans: seq<Plan>, row: string)
    requires WithinPlan(plans)
    ensures Sum(plans, PlannedFor(row)) == Sum(plans, StillPlanned(row))
  {
    forall i | 0 <= i < |plans| ensures PlannedFor(row)(plans[i]) == StillPlanned(row)(plans[i]) {
      assert plans[i] in plans;
    }
    SumAgree(plans, plans, PlannedFor(row), StillPlanned(row));
  }

  /** What is expected of an inbound row, neither received nor planned yet. */
  function Unplanned(bk: Book, r: InboundRow): real {
    Max(r.expected - r.received - Sum(bk.plans, StillPlanned(r.line)), 0.0)
  }

  /** One row: what is not planned yet goes to the open demand, in its order. */
  ghost predicate RowIsPlanned(bk: Book, after: Book, inbound: string, r: InboundRow) {
    PlannedAs(bk, after, inbound, r.line, SharesLeft(bk, r.order, Unplanned(bk, r)))
  }

  lemma NothingPlanned(bk: Book, inbound: string, row: string)
    ensures PlannedAs(bk, bk, inbound, row, [])
  {
    assert bk.plans + NewPlans(bk, inbound, row, []) == bk.plans;
    forall l | l in bk.lines.Keys ensures LineIsRouted(bk, bk, [], l) {}
  }

  lemma OneRowInbound(bk: Book, inbound: string, rows: seq<InboundRow>)
    requires WithinPlan(bk.plans) && |rows| > 0
    ensures var r := rows[0]; var open := Unplanned(bk, r);
      PlanInbound(bk, inbound, rows) == PlanInbound(if open <= 0.0 then bk
        else PlanMatches(bk, inbound, r.line, FindDemand(bk, r.order, open)), inbound, rows[1..])
  {
    SamePlanned(bk.plans, rows[0].line);
  }

  lemma PlansShares(bk: Book, inbound: string, row: string, order: seq<string>, open: real)
    requires open >= 0.0
    ensures FindDemand(bk, order, open) == SharesLeft(bk, order, open)
    ensures PlannedAs(bk, PlanMatches(bk, inbound, row, SharesLeft(bk, order, open)), inbound, row,
        SharesLeft(bk, order, open))
  {
    SharesAreOfLines(bk, order, open, |order|);
    DemandIsShared(bk, order, open);
    MatchesArePlanned(bk, inbound, row, SharesLeft(bk, order, open));
  }

  /** The first of the rows; the others go on from there. */
  lemma PlansOneRow(bk: Book, inbound: string, rows: seq<InboundRow>) returns (after: Book)
    requires WithinPlan(bk.plans) && |rows| > 0
    ensures PlanInbound(bk, inbound, rows) == PlanInbound(after, inbound, rows[1..])
    ensures RowIsPlanned(bk, after, inbound, rows[0])
  {
    var r, open := rows[0], Unplanned(bk, rows[0]);
    OneRowInbound(bk, inbound, rows);
    if open > 0.0 {
      PlansShares(bk, inbound, r.line, r.order, open);
      after := PlanMatches(bk, inbound, r.line, SharesLeft(bk, r.order, open));
    } else {
      NoSharesOfNothing(r.order, Wants(bk), open, |r.order|);
      NothingPlanned(bk, inbound, r.line);
      after := bk;
    }
  }

  lemma StaysWithinPlan(bk: Book, after: Book, inbound: string, r: InboundRow)
    requires RowIsPlanned(bk, after, inbound, r) && WithinPlan(bk.plans)
    ensures WithinPlan(after.plans)
  {
    var shares := SharesLeft(bk, r.order, Unplanned(bk, r));
    SharesAreOfLines(bk, r.order, Unplanned(bk, r), |r.order|);
    forall i | 0 <= i < |shares| ensures shares[i].quantity > 0.0 { assert shares[i] in shares; }
  }

  ghost predicate PlannedRowByRow(books: seq<Book>, inbound: string, rows: seq<InboundRow>) {
    |books| == |rows| + 1 && forall k :: 0 <= k < |rows| ==> RowIsPlanned(books[k], books[k + 1], inbound, rows[k])
  }

  /** The rows are planned one after the other. */
  lemma {:induction false} PlanningGoesRowByRow(bk: Book, inbound: string,
        rows: seq<InboundRow>) returns (books: seq<Book>)
    requires WithinPlan(bk.plans)
    ensures PlannedRowByRow(books, inbound, rows)
    ensures books[0] == bk && books[|rows|] == PlanInbound(bk, inbound, rows)
    decreases |rows|
  {
    if |rows| == 0 {
      books := [bk];
    } else {
      var next := PlansOneRow(bk, inbound, rows);
      StaysWithinPlan(bk, next, inbound, rows[0]);
      var later := PlanningGoesRowByRow(next, inbound, rows[1..]);
      books := [bk] + later;
      forall k | 0 <= k < |rows| ensures RowIsPlanned(books[k], books[k + 1], inbound, rows[k]) {
        if k > 0 { assert rows[1..][k - 1] == rows[k] && books[k] == later[k - 1]; }
      }
    }
  }

  // ---------------------------------------------------------------- how much is planned

  function PlannedOf(bk: Book, row: string): real { Sum(bk.plans, StillPlanned(row)) }

  lemma NewPlansAddUp(bk: Book, inbound: string, row: string, ms: seq<Match>, other: string)
    requires forall m <- ms :: m.quantity > 0.0
    ensures Sum(NewPlans(bk, inbound, row, ms), StillPlanned(other)) ==
        if other == row then Sum(ms, MatchedQuantity()) else 0.0
  {
    var plans := NewPlans(bk, inbound, row, ms);
    forall i | 0 <= i < |ms| ensures StillPlanned(row)(plans[i]) == MatchedQuantity()(ms[i]) { assert ms[i] in ms; }
    if other == row {
      SumAgree(plans, ms, StillPlanned(row), MatchedQuantity());
    } else {
      SumZero(plans, StillPlanned(other));
    }
  }

  /** A row's planned quantity grows by what is unplanned or all that is wanted, whichever is less; no other row's
      does. */
  lemma RowGrows(bk: Book, after: Book, inbound: string, r: InboundRow, other: string)
    requires RowIsPlanned(bk, after, inbound, r)
    ensures PlannedOf(after, other) == PlannedOf(bk, other) +
        if other == r.line then Min(Unplanned(bk, r), Sum(r.order, Wants(bk))) else 0.0
  {
    var shares := SharesLeft(bk, r.order, Unplanned(bk, r));
    SharesAreOfLines(bk, r.order, Unplanned(bk, r), |r.order|);
    SharesSpend(bk, r.order, Unplanned(bk, r));
    NewPlansAddUp(bk, inbound, r.line, shares, other);
    SumConcat(bk.plans, NewPlans(bk, inbound, r.line, shares), StillPlanned(other));
  }

  lemma WantsShrink(bk: Book, after: Book, inbound: string, r: InboundRow, l: string)
    requires RowIsPlanned(bk, after, inbound, r)
    ensures Wants(after)(l) <= Wants(bk)(l)
  {
    var shares := SharesLeft(bk, r.order, Unplanned(bk, r));
    SharesAreOfLines(bk, r.order, Unplanned(bk, r), |r.order|);
    if l in bk.lines {
      assert LineIsRouted(bk, after, shares, l);
      forall i | 0 <= i < |shares| ensures MatchOn(l)(shares[i]) >= 0.0 { assert shares[i] in shares; }
      SumNonNegative(shares, MatchOn(l));
    }
  }

  /** When there is enough for all, everyone's share is what he wants. */
  lemma ShareIsAll(order: seq<string>, wants: string -> real, quantity: real, i: nat)
    requires i < |order| && (forall l :: wants(l) >= 0.0) && quantity >= Sum(order, wants)
    ensures Share(order, wants, quantity, i) == wants(order[i])
  {
    assert order == order[..i] + order[i..];
    SumConcat(order[..i], order[i..], wants);
    SumHead(order[i..], wants);
    SumNonNegative(order[i..][1..], wants);
  }

  lemma WantsAfter(bk: Book, after: Book, inbound: string, r: InboundRow, l: string, gained: real)
    requires RowIsPlanned(bk, after, inbound, r)
    requires Sum(SharesLeft(bk, r.order, Unplanned(bk, r)), MatchOn(l)) == gained == Wants(bk)(l)
    ensures Wants(after)(l) == 0.0
  {
    if l in bk.lines { assert LineIsRouted(bk, after, SharesLeft(bk, r.order, Unplanned(bk, r)), l); }
  }

  /** When there is enough for all of the open demand, none is left. */
  lemma RowMeetsDemand(bk: Book, after: Book, inbound: string, r: InboundRow, i: nat)
    requires RowIsPlanned(bk, after, inbound, r) && NoDuplicates(r.order) && i < |r.order|
    requires Unplanned(bk, r) >= Sum(r.order, Wants(bk))
    ensures Wants(after)(r.order[i]) == 0.0
  {
    ShareIsAll(r.order, Wants(bk), Unplanned(bk, r), i);
    ShareOnLine(r.order, Wants(bk), Unplanned(bk, r), |r.order|, i);
    WantsAfter(bk, after, inbound, r, r.order[i], Wants(bk)(r.order[i]));
  }

  /** The row is planned as far as it can be: all that is expected, or no demand is left for it. */
  ghost predicate Covered(bk: Book, r: InboundRow) {
    PlannedOf(bk, r.line) >= r.expected - r.received || forall l <- r.order :: Wants(bk)(l) == 0.0
  }

  lemma StaysCovered(bk: Book, after: Book, inbound: string, r: InboundRow, done: InboundRow)
    requires RowIsPlanned(bk, after, inbound, r) && Covered(bk, done)
    ensures Covered(after, done)
  {
    RowGrows(bk, after, inbound, r, done.line);
    forall i | 0 <= i < |r.order| ensures Wants(bk)(r.order[i]) >= 0.0 {}
    SumNonNegative(r.order, Wants(bk));
    forall l | l in done.order && Wants(bk)(l) == 0.0 ensures Wants(after)(l) == 0.0 {
      WantsShrink(bk, after, inbound, r, l);
    }
  }

  lemma BecomesCovered(bk: Book, after: Book, inbound: string, r: InboundRow)
    requires RowIsPlanned(bk, after, inbound, r) && NoDuplicates(r.order)
    ensures Covered(after, r)
    ensures PlannedOf(after, r.line) <= Max(PlannedOf(bk, r.line), r.expected - r.received)
  {
    RowGrows(bk, after, inbound, r, r.line);
    if Unplanned(bk, r) >= Sum(r.order, Wants(bk)) {
      forall i | 0 <= i < |r.order| ensures Wants(after)(r.order[i]) == 0.0 {
        RowMeetsDemand(bk, after, inbound, r, i);
      }
    }
  }

  lemma {:induction false} CoveredAtTheEnd(books: seq<Book>, inbound: string, rows: seq<InboundRow>, k: nat, n: nat)
    requires PlannedRowByRow(books, inbound, rows) && k < n <= |rows| && NoDuplicates(rows[k].order)
    requires forall i, j :: 0 <= i < j < |rows| ==> rows[i].line != rows[j].line
    ensures Covered(books[n], rows[k])
    ensures PlannedOf(books[n], rows[k].line) <=
        Max(PlannedOf(books[k], rows[k].line), rows[k].expected - rows[k].received)
  {
    assert RowIsPlanned(books[n - 1], books[n - 1 + 1], inbound, rows[n - 1]);
    if n == k + 1 {
      BecomesCovered(books[k], books[n], inbound, rows[k]);
    } else {
      CoveredAtTheEnd(books, inbound, rows, k, n - 1);
      StaysCovered(books[n - 1], books[n], inbound, rows[n - 1], rows[k]);
      RowGrows(books[n - 1], books[n], inbound, rows[n - 1], rows[k].line);
    }
  }

  lemma {:induction false} UnplannedYet(books: seq<Book>, inbound: string, rows: seq<InboundRow>, k: nat, n: nat)
    requires PlannedRowByRow(books, inbound, rows) && n <= k < |rows|
    requires forall i, j :: 0 <= i < j < |rows| ==> rows[i].line != rows[j].line
    ensures PlannedOf(books[n], rows[k].line) == PlannedOf(books[0], rows[k].line)
  {
    if n > 0 {
      UnplannedYet(books, inbound, rows, k, n - 1);
      assert RowIsPlanned(books[n - 1], books[n - 1 + 1], inbound, rows[n - 1]);
      RowGrows(books[n - 1], books[n], inbound, rows[n - 1], rows[k].line);
    }
  }

  /** After planning, no row is planned beyond what is expected of it, and each as far as there is demand for it. */
  lemma PlanningCoversRows(bk: Book, inbound: string, rows: seq<InboundRow>, k: nat)
    requires WithinPlan(bk.plans) && k < |rows| && NoDuplicates(rows[k].order)
    requires forall i, j :: 0 <= i < j < |rows| ==> rows[i].line != rows[j].line
    ensures var after := PlanInbound(bk, inbound, rows); var r := rows[k];
      && PlannedOf(after, r.line) <= Max(PlannedOf(bk, r.line), r.expected - r.received)
      && (PlannedOf(after, r.line) >= r.expected - r.received || forall l <- r.order :: Wants(after)(l) == 0.0)
  {
    var books := PlanningGoesRowByRow(bk, inbound, rows);
    CoveredAtTheEnd(books, inbound, rows, k, |rows|);
    UnplannedYet(books, inbound, rows, k, k);
  }

  // ---------------------------------------------------------------- withdrawing an inbound delivery

  /** What a plan gives back to the line when its inbound delivery is withdrawn. */
  function GivenBack(inbound: string, l: string): Plan -> real {
    (p: Plan) => if p.inbound == inbound && p.status == Planned && p.line == l then p.planned - p.consumed else 0.0
  }

  function Withdrawn(p: Plan, inbound: string): Plan {
    if p.inbound == inbound && p.status == Planned then p.(status := Cancelled) else p
  }

  ghost predicate LineIsRelieved(bk: Book, after: Book, inbound: string, n: nat, l: string)
    requires n <= |bk.plans|
  {
    && l in bk.lines && l in after.lines
    && after.lines[l] == bk.lines[l].(allocatedQuantity := bk.lines[l].allocatedQuantity -
        Sum(bk.plans[..n], GivenBack(inbound, l)))
  }

  /** The first `n` plans are looked at. */
  ghost predicate IsWithdrawn(bk: Book, after: Book, inbound: string, n: nat)
    requires n <= |bk.plans|
  {
    && after == bk.(lines := after.lines, plans := after.plans)
    && |after.plans| == |bk.plans|
    && (forall i :: 0 <= i < n ==> after.plans[i] == Withdrawn(bk.plans[i], inbound))
    && (forall i :: n <= i < |bk.plans| ==> after.plans[i] == bk.plans[i])
    && after.lines.Keys == bk.lines.Keys
    && forall l <- bk.lines.Keys :: LineIsRelieved(bk, after, inbound, n, l)
  }

  lemma RelievedNext(bk: Book, before: Book, after: Book, inbound: string, n: nat, l: string)
    requires n < |bk.plans| == |before.plans| && LineIsRelieved(bk, before, inbound, n, l)
    requires before.plans[n] == bk.plans[n]
    requires after == if before.plans[n].inbound == inbound && before.plans[n].status == Planned
        then GiveBackPlan(before, n) else before
    requires before.plans[n].status == Planned ==> var p := before.plans[n];
      p.line in before.lines && before.lines[p.line].allocatedQuantity >= p.planned - p.consumed > 0.0
    ensures LineIsRelieved(bk, after, inbound, n + 1, l)
  {
    assert bk.plans[..n + 1][..n] == bk.plans[..n];
  }

  lemma WithdrawnNext(bk: Book, before: Book, after: Book, inbound: string, n: nat)
    requires n < |bk.plans| && IsWithdrawn(bk, before, inbound, n)
    requires after == if before.plans[n].inbound == inbound && before.plans[n].status == Planned
        then GiveBackPlan(before, n) else before
    requires before.plans[n].status == Planned ==> var p := before.plans[n];
      p.line in before.lines && before.lines[p.line].allocatedQuantity >= p.planned - p.consumed > 0.0
    ensures IsWithdrawn(bk, after, inbound, n + 1)
  {
    forall l | l in bk.lines.Keys ensures LineIsRelieved(bk, after, inbound, n + 1, l) {
      RelievedNext(bk, before, after, inbound, n, l);
    }
  }

  lemma NothingWithdrawn(bk: Book, inbound: string)
    ensures IsWithdrawn(bk, bk, inbound, 0)
  {
    assert bk.plans[..0] == [];
    forall l | l in bk.lines.Keys ensures LineIsRelieved(bk, bk, inbound, 0, l) {}
  }

  /** A line holds what its open plans have still to bring. */
  ghost predicate CanGiveBack(bk: Book, i: nat) {
    i < |bk.plans| && (bk.plans[i].status == Planned ==> var p := bk.plans[i];
      p.line in bk.lines && bk.lines[p.line].allocatedQuantity >= p.planned - p.consumed > 0.0)
  }

  lemma ConservedCanGiveBack(bk: Book, inbound: string, n: nat)
    requires Conserved(bk) && n < |bk.plans|
    ensures CanGiveBack(CancelInboundPlans(bk, inbound, n), n)
  {
    var before := CancelInboundPlans(bk, inbound, n);
    CancelInboundKeeps(bk, inbound, n);
    if before.plans[n].status == Planned { GiveBackIsExact(before, n); }
  }

  lemma {:induction false} InboundIsWithdrawnUpTo(bk: Book, inbound: string, n: nat)
    requires n <= |bk.plans| && forall k: nat :: k < n ==> CanGiveBack(CancelInboundPlans(bk, inbound, k), k)
    ensures IsWithdrawn(bk, CancelInboundPlans(bk, inbound, n), inbound, n)
  {
    if n == 0 {
      NothingWithdrawn(bk, inbound);
    } else {
      var k := n - 1;
      InboundIsWithdrawnUpTo(bk, inbound, k);
      assert CanGiveBack(CancelInboundPlans(bk, inbound, k), k);
      WithdrawnNext(bk, CancelInboundPlans(bk, inbound, k), CancelInboundPlans(bk, inbound, n), inbound, k);
    }
  }

  /** Withdrawing an inbound delivery cancels all its open plans and no other, and gives every line back exactly what
      they had still to bring. */
  lemma InboundIsWithdrawn(bk: Book, inbound: string)
    requires Conserved(bk)
    ensures IsWithdrawn(bk, CancelInboundPlans(bk, inbound, |bk.plans|), inbound, |bk.plans|)
  {
    forall k: nat | k < |bk.plans| ensures CanGiveBack(CancelInboundPlans(bk, inbound, k), k) {
      ConservedCanGiveBack(bk, inbound, k);
    }
    InboundIsWithdrawnUpTo(bk, inbound, |bk.plans|);
  }
}
