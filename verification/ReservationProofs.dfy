/** Conservation: what balances and delivery lines say is reserved is exactly what live reservations add up to. */
module ReservationProofs {
  import opened Basics
  import opened Sums
  import opened Sorting
  import opened Reservations

  function OnBalance(b: string): Allocation -> real {
    (a: Allocation) => if !a.cancelled && a.balance == b then a.quantity else 0.0
  }

  function OnLine(line: string): Allocation -> real {
    (a: Allocation) => if !a.cancelled && a.line == line then a.quantity else 0.0
  }

  function PlanOnLine(line: string): Plan -> real {
    (p: Plan) => if p.line == line then OpenPlan(p) else 0.0
  }

  function RequestOnLine(line: string): Request -> real {
    (r: Request) => if !r.cancelled && r.line == line then r.quantity else 0.0
  }

  /** Everything that is reserved for a line: allocated stock, planned goods, and goods on their way to staging. */
  function Claims(bk: Book, line: string): real {
    Sum(bk.allocations, OnLine(line)) + Sum(bk.plans, PlanOnLine(line)) + Sum(bk.requests, RequestOnLine(line))
  }

  ghost predicate BalanceAgrees(bk: Book, b: string)
    requires b in bk.balances
  {
    var x := bk.balances[b];
    && x.allocatedQuantity == Sum(bk.allocations, OnBalance(b))
    && x.available == x.quantity - x.allocatedQuantity >= 0.0
  }

  ghost predicate LineAgrees(bk: Book, line: string)
    requires line in bk.lines
  {
    Claims(bk, line) == bk.lines[line].allocatedQuantity <= bk.lines[line].requested && bk.lines[line].issued >= 0.0
  }

  /** A live reservation serves a line of an open delivery. */
  ghost predicate Serves(bk: Book, delivery: string, line: string) {
    line in bk.lines && bk.lines[line].delivery == delivery && IsOpen(bk, delivery)
  }

  ghost predicate AllocationSound(bk: Book, a: Allocation) {
    a.quantity > 0.0 && (!a.cancelled ==> a.balance in bk.balances && Serves(bk, a.delivery, a.line))
  }

  ghost predicate PlanSound(bk: Book, p: Plan) {
    p.status == Planned ==> 0.0 <= p.consumed < p.planned && Serves(bk, p.delivery, p.line)
  }

  ghost predicate RequestSound(bk: Book, r: Request) {
    r.quantity > 0.0 && (!r.cancelled ==> Serves(bk, r.delivery, r.line))
  }

  ghost predicate ReservationsSound(bk: Book) {
    && (forall i :: 0 <= i < |bk.allocations| ==> AllocationSound(bk, bk.allocations[i]))
    && (forall i :: 0 <= i < |bk.plans| ==> PlanSound(bk, bk.plans[i]))
    && (forall i :: 0 <= i < |bk.requests| ==> RequestSound(bk, bk.requests[i]))
  }

  ghost predicate BalancesAgree(bk: Book) {
    forall b :: b in bk.balances ==> BalanceAgrees(bk, b)
  }

  /** Lines of open deliveries agree, except possibly the line and the delivery being worked on. */
  ghost predicate LinesAgreeBut(bk: Book, line: Option<string>, delivery: Option<string>) {
    forall l ::
      l in bk.lines && IsOpen(bk, bk.lines[l].delivery) && Some(l) != line && Some(bk.lines[l].delivery) != delivery ==>
        LineAgrees(bk, l)
  }

  ghost predicate Conserved(bk: Book) {
    ReservationsSound(bk) && BalancesAgree(bk) && LinesAgreeBut(bk, None, None)
  }

  lemma ClaimsNotNegative(bk: Book, line: string)
    requires ReservationsSound(bk)
    ensures Sum(bk.allocations, OnLine(line)) >= 0.0 && Sum(bk.plans, PlanOnLine(line)) >= 0.0
    ensures Sum(bk.requests, RequestOnLine(line)) >= 0.0
  {
    forall i | 0 <= i < |bk.allocations|
      ensures OnLine(line)(bk.allocations[i]) >= 0.0
    {
      assert AllocationSound(bk, bk.allocations[i]);
    }
    forall i | 0 <= i < |bk.plans| ensures PlanOnLine(line)(bk.plans[i]) >= 0.0 { assert PlanSound(bk, bk.plans[i]); }
    forall i | 0 <= i < |bk.requests|
      ensures RequestOnLine(line)(bk.requests[i]) >= 0.0
    {
      assert RequestSound(bk, bk.requests[i]);
    }
    SumNonNegative(bk.allocations, OnLine(line));
    SumNonNegative(bk.plans, PlanOnLine(line));
    SumNonNegative(bk.requests, RequestOnLine(line));
  }

  /** Reservations stay sound when what they serve stays open and every changed reservation is sound itself. */
  lemma SoundCarries(bk: Book, after: Book)
    requires ReservationsSound(bk) && bk.balances.Keys <= after.balances.Keys
    requires forall d, l :: Serves(bk, d, l) ==> Serves(after, d, l)
    requires forall i :: 0 <= i < |after.allocations| ==>
      (i < |bk.allocations| && after.allocations[i] == bk.allocations[i]) ||
          AllocationSound(after, after.allocations[i])
    requires forall i ::
        0 <= i < |after.plans| ==> (i < |bk.plans| && after.plans[i] == bk.plans[i]) || PlanSound(after, after.plans[i])
    requires forall i ::
        0 <= i < |after.requests| ==>
          (i < |bk.requests| && after.requests[i] == bk.requests[i]) || RequestSound(after, after.requests[i])
    ensures ReservationsSound(after)
  {
    forall i | 0 <= i < |after.allocations| ensures AllocationSound(after, after.allocations[i]) {
      if i < |bk.allocations| { assert AllocationSound(bk, bk.allocations[i]); }
    }
    forall i | 0 <= i < |after.plans|
      ensures PlanSound(after, after.plans[i])
    {
      if i < |bk.plans| { assert PlanSound(bk, bk.plans[i]); }
    }
    forall i | 0 <= i < |after.requests|
      ensures RequestSound(after, after.requests[i])
    {
      if i < |bk.requests| { assert RequestSound(bk, bk.requests[i]); }
    }
  }

  lemma BalancesCarry(bk: Book, after: Book)
    requires BalancesAgree(bk) && after.balances == bk.balances && after.allocations == bk.allocations
    ensures BalancesAgree(after)
  {
    forall b | b in after.balances ensures BalanceAgrees(after, b) { assert BalanceAgrees(bk, b); }
  }

  // ---------------------------------------------------------------- allocation

  lemma TakeKeeps(bk: Book, delivery: string, line: string, b: string, taken: real)
    requires ReservationsSound(bk) && BalancesAgree(bk) && LinesAgreeBut(bk, Some(line), None)
    requires Serves(bk, delivery, line) && b in bk.balances && 0.0 < taken <= bk.balances[b].available
    ensures var after := Take(bk, delivery, line, b, taken);
      && ReservationsSound(after) && BalancesAgree(after) && LinesAgreeBut(after, Some(line), None)
      && Claims(after, line) == Claims(bk, line) + taken && after.lines == bk.lines && after.deliveries == bk.deliveries
  {
    var after := Take(bk, delivery, line, b, taken);
    var a := Allocation(delivery, line, b, taken, false);
    assert after.allocations[..|bk.allocations|] == bk.allocations;
    SoundCarries(bk, after);
    forall x | x in after.balances ensures BalanceAgrees(after, x) { assert BalanceAgrees(bk, x); }
    forall l | l in after.lines && IsOpen(after, after.lines[l].delivery) && l != line
      ensures LineAgrees(after, l)
    {
      assert LineAgrees(bk, l);
    }
  }

  lemma {:induction false} DrawDownKeeps(bk: Book, delivery: string, line: string, candidates: seq<string>,
        needed: real)
    requires ReservationsSound(bk) && BalancesAgree(bk) && LinesAgreeBut(bk, Some(line), None)
    requires Serves(bk, delivery, line)
    ensures var (after, left) := DrawDown(bk, delivery, line, candidates, needed);
      && ReservationsSound(after) && BalancesAgree(after) && LinesAgreeBut(after, Some(line), None)
      && Claims(after, line) == Claims(bk, line) + (needed - left) && after.lines == bk.lines &&
          after.deliveries == bk.deliveries
      && (needed >= 0.0 ==> 0.0 <= left <= needed) && (needed < 0.0 ==> left == needed)
    decreases |candidates|
  {
    if |candidates| > 0 && needed > 0.0 {
      var b := candidates[0];
      if b !in bk.balances || bk.balances[b].available <= 0.0 {
        DrawDownKeeps(bk, delivery, line, candidates[1..], needed);
      } else {
        var taken := Min(needed, bk.balances[b].available);
        TakeKeeps(bk, delivery, line, b, taken);
        DrawDownKeeps(Take(bk, delivery, line, b, taken), delivery, line, candidates[1..], needed - taken);
      }
    }
  }

  // What an allocation takes, and from where.

  function AvailableIn(bk: Book): string -> real {
    (b: string) => if b in bk.balances then Max(bk.balances[b].available, 0.0) else 0.0
  }

  /** The draw-down takes what is needed or all there is, whichever is less. */
  lemma {:induction false} DrawDownTakesMin(bk: Book, delivery: string, line: string, candidates: seq<string>,
        needed: real)
    requires NoDuplicates(candidates) && needed >= 0.0
    ensures needed - DrawDown(bk, delivery, line, candidates, needed).1 == Min(needed, Sum(candidates, AvailableIn(bk)))
    decreases |candidates|
  {
    forall i | 0 <= i < |candidates| ensures AvailableIn(bk)(candidates[i]) >= 0.0 {}
    SumNonNegative(candidates, AvailableIn(bk));
    if |candidates| > 0 {
      var b, rest := candidates[0], candidates[1..];
      assert NoDuplicates(rest);
      SumHead(candidates, AvailableIn(bk));
      if needed > 0.0 {
        if b !in bk.balances || bk.balances[b].available <= 0.0 {
          DrawDownTakesMin(bk, delivery, line, rest, needed);
        } else {
          var taken := Min(needed, bk.balances[b].available);
          var next := Take(bk, delivery, line, b, taken);
          DrawDownTakesMin(next, delivery, line, rest, needed - taken);
          forall i | 0 <= i < |rest|
            ensures AvailableIn(next)(rest[i]) == AvailableIn(bk)(rest[i])
          {
            assert candidates[i + 1] != b;
          }
          SumAgree(rest, rest, AvailableIn(next), AvailableIn(bk));
        }
      }
    }
  }

  lemma SumHead<T>(s: seq<T>, f: T -> real)
    requires |s| > 0
    ensures Sum(s, f) == f(s[0]) + Sum(s[1..], f)
  {
    SumConcat([s[0]], s[1..], f);
    assert s == [s[0]] + s[1..] && [s[0]][..0] == [];
  }

  /** The draw-down is greedy: a balance is touched only when every candidate before it is drained, and no other balance
      is touched at all. */
  lemma {:induction false} DrawDownIsGreedy(bk: Book, delivery: string, line: string, candidates: seq<string>,
        needed: real)
    requires NoDuplicates(candidates)
    ensures var after := DrawDown(bk, delivery, line, candidates, needed).0;
      && after.balances.Keys == bk.balances.Keys
      && (forall b :: b in bk.balances && b !in candidates ==> after.balances[b] == bk.balances[b])
      && (forall i, j :: 0 <= i < j < |candidates| && Touched(bk, after, candidates[j]) ==>
          AvailableIn(after)(candidates[i]) == 0.0)
    decreases |candidates|
  {
    if |candidates| > 0 && needed > 0.0 {
      var b, rest := candidates[0], candidates[1..];
      assert NoDuplicates(rest);
      var after := DrawDown(bk, delivery, line, candidates, needed).0;
      var next, left := bk, needed;
      if b in bk.balances && bk.balances[b].available > 0.0 {
        var taken := Min(needed, bk.balances[b].available);
        next, left := Take(bk, delivery, line, b, taken), needed - taken;
      }
      DrawDownIsGreedy(next, delivery, line, rest, left);
      assert b !in rest;
      forall i, j | 0 <= i < j < |candidates| && Touched(bk, after, candidates[j])
        ensures AvailableIn(after)(candidates[i]) == 0.0
      {
        assert candidates[j] == rest[j - 1] && Touched(next, after, rest[j - 1]);
        if i > 0 { assert candidates[i] == rest[i - 1]; }
      }
    }
  }

  ghost predicate Touched(before: Book, after: Book, b: string) {
    b in before.balances && b in after.balances && after.balances[b] != before.balances[b]
  }

  lemma AllocateLineKeeps(bk: Book, delivery: string, line: string, candidates: seq<string>)
    requires Conserved(bk) && IsOpen(bk, delivery)
    ensures Conserved(AllocateLine(bk, delivery, line, candidates))
    ensures AllocateLine(bk, delivery, line, candidates).deliveries == bk.deliveries
  {
    if line in bk.lines && bk.lines[line].delivery == delivery {
      var l := bk.lines[line];
      assert LineAgrees(bk, line);
      DrawDownKeeps(bk, delivery, line, candidates, l.requested - l.allocatedQuantity);
      var (mid, left) := DrawDown(bk, delivery, line, candidates, l.requested - l.allocatedQuantity);
      LineChanges(mid, line, l.(allocatedQuantity := l.requested - left));
    }
  }

  /** Rewriting one line's quantities leaves every reservation sound, and the other lines as they were. */
  lemma LineChanges(bk: Book, line: string, l: Line)
    requires ReservationsSound(bk) && BalancesAgree(bk) && LinesAgreeBut(bk, Some(line), None)
    requires line in bk.lines && bk.lines[line].delivery == l.delivery
    requires Claims(bk, line) == l.allocatedQuantity <= l.requested && l.issued >= 0.0
    ensures Conserved(bk.(lines := bk.lines[line := l]))
  {
    var after := bk.(lines := bk.lines[line := l]);
    SoundCarries(bk, after);
    BalancesCarry(bk, after);
    forall x | x in after.lines && IsOpen(after, after.lines[x].delivery) ensures LineAgrees(after, x) {
      if x != line { assert LineAgrees(bk, x); }
    }
  }

  lemma {:induction false} AllocateLinesKeeps(bk: Book, delivery: string, items: seq<string>,
        candidates: map<string, seq<string>>)
    requires Conserved(bk) && IsOpen(bk, delivery)
    ensures Conserved(AllocateLines(bk, delivery, items, candidates))
    decreases |items|
  {
    if |items| > 0 {
      AllocateLineKeeps(bk, delivery, items[0], CandidatesOf(candidates, items[0]));
      AllocateLinesKeeps(AllocateLine(bk, delivery, items[0], CandidatesOf(candidates, items[0])), delivery, items[1..],
          candidates);
    }
  }

  // ---------------------------------------------------------------- cancelling an outbound delivery

  ghost predicate ConservedBut(bk: Book, delivery: string) {
    ReservationsSound(bk) && BalancesAgree(bk) && LinesAgreeBut(bk, None, Some(delivery))
  }

  /** The clamp at zero never bites: a balance has at least as much allocated as each of its live allocations. */
  lemma ReleaseIsExact(bk: Book, i: nat)
    requires ReservationsSound(bk) && BalancesAgree(bk)
    requires i < |bk.allocations| && !bk.allocations[i].cancelled
    ensures var a := bk.allocations[i];
      a.balance in bk.balances && Released(bk.balances[a.balance], a.quantity).allocatedQuantity ==
          bk.balances[a.balance].allocatedQuantity - a.quantity
  {
    var a := bk.allocations[i];
    assert AllocationSound(bk, a);
    assert BalanceAgrees(bk, a.balance);
    forall k | 0 <= k < |bk.allocations|
      ensures OnBalance(a.balance)(bk.allocations[k]) >= 0.0
    {
      assert AllocationSound(bk, bk.allocations[k]);
    }
    SumAtLeastTerm(bk.allocations, i, OnBalance(a.balance));
  }

  lemma ReleaseKeeps(bk: Book, i: nat, delivery: string)
    requires ConservedBut(bk, delivery)
    requires i < |bk.allocations| && !bk.allocations[i].cancelled && bk.allocations[i].delivery == delivery
    ensures ConservedBut(ReleaseAllocation(bk, i), delivery)
  {
    var a := bk.allocations[i];
    var after := ReleaseAllocation(bk, i);
    assert AllocationSound(bk, a);
    ReleaseIsExact(bk, i);
    SoundCarries(bk, after);
    forall b | b in after.balances ensures BalanceAgrees(after, b) {
      assert BalanceAgrees(bk, b);
      SumUpdate(bk.allocations, i, a.(cancelled := true), OnBalance(b));
    }
    forall l | l in after.lines && IsOpen(after, after.lines[l].delivery) && after.lines[l].delivery != delivery
      ensures LineAgrees(after, l)
    {
      assert LineAgrees(bk, l);
      SumUpdate(bk.allocations, i, a.(cancelled := true), OnLine(l));
    }
  }

  ghost predicate NoneLive(bk: Book, delivery: string, n: nat) {
    forall i :: 0 <= i < n && i < |bk.allocations| && bk.allocations[i].delivery == delivery ==>
        bk.allocations[i].cancelled
  }

  lemma {:induction false} ReleaseAllFrames(bk: Book, delivery: string, n: nat)
    requires n <= |bk.allocations|
    ensures var after := ReleaseAllocations(bk, delivery, n);
      && NoneLive(after, delivery, n) && after.lines == bk.lines && after.plans == bk.plans &&
          after.requests == bk.requests
      && forall i :: n <= i < |bk.allocations| ==> after.allocations[i] == bk.allocations[i]
    decreases n
  {
    if n > 0 { ReleaseAllFrames(bk, delivery, n - 1); }
  }

  lemma {:induction false} ReleaseAllKeeps(bk: Book, delivery: string, n: nat)
    requires ConservedBut(bk, delivery) && n <= |bk.allocations|
    ensures ConservedBut(ReleaseAllocations(bk, delivery, n), delivery)
    decreases n
  {
    if n > 0 {
      ReleaseAllKeeps(bk, delivery, n - 1);
      var before := ReleaseAllocations(bk, delivery, n - 1);
      if before.allocations[n - 1].delivery == delivery && !before.allocations[n - 1].cancelled {
        ReleaseKeeps(before, n - 1, delivery);
      }
    }
  }

  lemma WithdrawKeeps(bk: Book, delivery: string)
    requires ConservedBut(bk, delivery) && NoneLive(bk, delivery, |bk.allocations|) && IsOpen(bk, delivery)
    ensures Conserved(bk.(plans := Each(bk.plans, DropPlan(delivery)),
                          requests := Each(bk.requests, DropRequest(delivery)),
                          deliveries := bk.deliveries[delivery := bk.deliveries[delivery].(open := false)]))
  {
    var after := bk.(plans := Each(bk.plans, DropPlan(delivery)),
                     requests := Each(bk.requests, DropRequest(delivery)),
                     deliveries := bk.deliveries[delivery := bk.deliveries[delivery].(open := false)]);
    forall k | 0 <= k < |after.allocations|
      ensures AllocationSound(after, after.allocations[k])
    {
      assert AllocationSound(bk, bk.allocations[k]);
    }
    forall k | 0 <= k < |after.plans| ensures PlanSound(after, after.plans[k]) { assert PlanSound(bk, bk.plans[k]); }
    forall k | 0 <= k < |after.requests|
      ensures RequestSound(after, after.requests[k])
    {
      assert RequestSound(bk, bk.requests[k]);
    }
    BalancesCarry(bk, after);
    forall l | l in after.lines && IsOpen(after, after.lines[l].delivery) ensures LineAgrees(after, l) {
      assert LineAgrees(bk, l);
      forall k | 0 <= k < |bk.plans|
        ensures PlanOnLine(l)(bk.plans[k]) == PlanOnLine(l)(after.plans[k])
      {
        assert PlanSound(bk, bk.plans[k]);
      }
      forall k | 0 <= k < |bk.requests|
        ensures RequestOnLine(l)(bk.requests[k]) == RequestOnLine(l)(after.requests[k])
      {
        assert RequestSound(bk, bk.requests[k]);
      }
      SumAgree(bk.plans, after.plans, PlanOnLine(l), PlanOnLine(l));
      SumAgree(bk.requests, after.requests, RequestOnLine(l), RequestOnLine(l));
    }
  }

  lemma CancelKeeps(bk: Book, delivery: string)
    requires Conserved(bk)
    ensures Conserved(CancelDelivery(bk, delivery)) && CancelDelivery(bk, delivery).lines == bk.lines
    ensures CancelDelivery(bk, delivery).deliveries.Keys == bk.deliveries.Keys
  {
    if IsOpen(bk, delivery) {
      ReleaseAllKeeps(bk, delivery, |bk.allocations|);
      ReleaseAllFrames(bk, delivery, |bk.allocations|);
      WithdrawKeeps(ReleaseAllocations(bk, delivery, |bk.allocations|), delivery);
    }
  }

  // ---------------------------------------------------------------- cross-docking

  ghost predicate NoDuplicates(s: seq<string>) {
    forall i, j :: 0 <= i < j < |s| ==> s[i] != s[j]
  }

  /** A match claims no more than its line still wants. */
  ghost predicate MatchFits(bk: Book, m: Match) {
    && m.line in bk.lines && IsOpen(bk, bk.lines[m.line].delivery)
    && 0.0 < m.quantity <= bk.lines[m.line].requested - bk.lines[m.line].allocatedQuantity
  }

  ghost predicate MatchesFit(bk: Book, ms: seq<Match>) {
    && (forall i :: 0 <= i < |ms| ==> MatchFits(bk, ms[i]))
    && (forall i, j :: 0 <= i < j < |ms| ==> ms[i].line != ms[j].line)
  }

  lemma {:induction false} MatchesAreFitting(bk: Book, demand: seq<string>, remaining: real)
    requires NoDuplicates(demand)
    requires forall l :: l in demand ==> l in bk.lines && IsOpen(bk, bk.lines[l].delivery)
    ensures var ms := Matches(bk.lines, demand, remaining);
      && MatchesFit(bk, ms) && (forall i :: 0 <= i < |ms| ==> ms[i].line in demand)
    decreases |demand|
  {
    if |demand| > 0 && remaining > 0.0 {
      var take := Min(remaining, Outstanding(bk.lines, demand[0]));
      assert NoDuplicates(demand[1..]);
      MatchesAreFitting(bk, demand[1..], if take <= 0.0 then remaining else remaining - take);
    }
  }

  lemma {:induction false} FilterKeepsDistinct(s: seq<string>, keep: string -> bool)
    requires NoDuplicates(s)
    ensures NoDuplicates(Filter(s, keep)) && forall x :: x in Filter(s, keep) ==> x in s && keep(x)
  {
    if |s| > 0 {
      assert NoDuplicates(s[1..]);
      FilterKeepsDistinct(s[1..], keep);
    }
  }

  lemma FindDemandFits(bk: Book, order: seq<string>, quantity: real)
    requires NoDuplicates(order)
    ensures MatchesFit(bk, FindDemand(bk, order, quantity))
  {
    FilterKeepsDistinct(order, (l: string) => l in bk.lines && IsOpen(bk,
        bk.lines[l].delivery) && bk.lines[l].requested > bk.lines[l].allocatedQuantity);
    MatchesAreFitting(bk, OpenDemand(bk, order), quantity);
  }

  lemma RouteOneKeeps(bk: Book, m: Match)
    requires Conserved(bk) && MatchFits(bk, m)
    ensures Conserved(RaiseRequest(Reserve(bk, m), m))
  {
    var l := bk.lines[m.line];
    var r := Request(l.delivery, m.line, m.quantity, false);
    var mid := bk.(requests := bk.requests + [r]);
    assert mid.requests[..|bk.requests|] == bk.requests;
    assert LineAgrees(bk, m.line);
    SoundCarries(bk, mid);
    BalancesCarry(bk, mid);
    forall x | x in mid.lines && IsOpen(mid, mid.lines[x].delivery) && x != m.line
      ensures LineAgrees(mid, x)
    {
      assert LineAgrees(bk, x);
    }
    LineChanges(mid, m.line, l.(allocatedQuantity := l.allocatedQuantity + m.quantity));
    assert RaiseRequest(Reserve(bk, m), m) ==
        mid.(lines := bk.lines[m.line := l.(allocatedQuantity := l.allocatedQuantity + m.quantity)]);
  }

  lemma {:induction false} RouteKeeps(bk: Book, ms: seq<Match>)
    requires Conserved(bk) && MatchesFit(bk, ms)
    ensures Conserved(RouteMatches(bk, ms))
    decreases |ms|
  {
    if |ms| > 0 {
      RouteOneKeeps(bk, ms[0]);
      var next := RaiseRequest(Reserve(bk, ms[0]), ms[0]);
      forall i | 0 <= i < |ms[1..]| ensures MatchFits(next, ms[1..][i]) { assert MatchFits(bk, ms[i + 1]); }
      RouteKeeps(next, ms[1..]);
    }
  }

  lemma AppendPlan(bk: Book, p: Plan)
    requires Conserved(bk) && p.status == Planned && 0.0 == p.consumed < p.planned && Serves(bk, p.delivery, p.line)
    ensures var after := bk.(plans := bk.plans + [p]);
      && ReservationsSound(after) && BalancesAgree(after) && LinesAgreeBut(after, Some(p.line), None)
      && Claims(after, p.line) == Claims(bk, p.line) + p.planned
  {
    var after := bk.(plans := bk.plans + [p]);
    assert after.plans[..|bk.plans|] == bk.plans;
    SoundCarries(bk, after);
    BalancesCarry(bk, after);
    forall x | x in after.lines && IsOpen(after, after.lines[x].delivery) && x != p.line
      ensures LineAgrees(after, x)
    {
      assert LineAgrees(bk, x);
    }
  }

  lemma PlanOneKeeps(bk: Book, inbound: string, inboundLine: string, m: Match)
    requires Conserved(bk) && MatchFits(bk, m)
    ensures var reserved := Reserve(bk, m);
      Conserved(reserved.(plans := reserved.plans + [Plan(inbound, inboundLine, DeliveryOf(bk, m.line), m.line,
          m.quantity, 0.0, Planned)]))
  {
    var l := bk.lines[m.line];
    var p := Plan(inbound, inboundLine, l.delivery, m.line, m.quantity, 0.0, Planned);
    AppendPlan(bk, p);
    assert LineAgrees(bk, m.line);
    LineChanges(bk.(plans := bk.plans + [p]), m.line, l.(allocatedQuantity := l.allocatedQuantity + m.quantity));
  }

  lemma {:induction false} PlanMatchesKeeps(bk: Book, inbound: string, inboundLine: string, ms: seq<Match>)
    requires Conserved(bk) && MatchesFit(bk, ms)
    ensures Conserved(PlanMatches(bk, inbound, inboundLine, ms))
    decreases |ms|
  {
    if |ms| > 0 {
      PlanOneKeeps(bk, inbound, inboundLine, ms[0]);
      var reserved := Reserve(bk, ms[0]);
      var next := reserved.(plans := reserved.plans + [Plan(inbound, inboundLine, DeliveryOf(bk, ms[0].line),
          ms[0].line, ms[0].quantity, 0.0, Planned)]);
      forall i | 0 <= i < |ms[1..]| ensures MatchFits(next, ms[1..][i]) { assert MatchFits(bk, ms[i + 1]); }
      PlanMatchesKeeps(next, inbound, inboundLine, ms[1..]);
    }
  }

  lemma {:induction false} PlanInboundKeeps(bk: Book, inbound: string, rows: seq<InboundRow>)
    requires Conserved(bk) && forall i :: 0 <= i < |rows| ==> NoDuplicates(rows[i].order)
    ensures Conserved(PlanInbound(bk, inbound, rows))
    decreases |rows|
  {
    if |rows| > 0 {
      var r := rows[0];
      var openQuantity := r.expected - r.received - Sum(bk.plans, PlannedFor(r.line));
      var after := if openQuantity <= 0.0 then bk
          else PlanMatches(bk, inbound, r.line, FindDemand(bk, r.order, openQuantity));
      if openQuantity > 0.0 {
        FindDemandFits(bk, r.order, openQuantity);
        PlanMatchesKeeps(bk, inbound, r.line, FindDemand(bk, r.order, openQuantity));
      }
      PlanInboundKeeps(after, inbound, rows[1..]);
    }
  }

  /** Consuming a plan turns planned goods into goods on their way: the line's claims stay the same. */
  lemma ConsumeKeeps(bk: Book, i: nat, take: real)
    requires Conserved(bk) && i < |bk.plans| && bk.plans[i].status == Planned
    requires 0.0 < take <= bk.plans[i].planned - bk.plans[i].consumed
    ensures Conserved(Consume(bk, i, take))
  {
    var p, after := bk.plans[i], Consume(bk, i, take);
    assert PlanSound(bk, p);
    assert after.requests[..|bk.requests|] == bk.requests;
    SoundCarries(bk, after);
    BalancesCarry(bk, after);
    forall l | l in after.lines && IsOpen(after, after.lines[l].delivery) ensures LineAgrees(after, l) {
      assert LineAgrees(bk, l);
      SumUpdate(bk.plans, i, after.plans[i], PlanOnLine(l));
    }
  }

  lemma {:induction false} ConsumePlansKeeps(bk: Book, inboundLine: string, from: nat, left: real)
    requires Conserved(bk) && from <= |bk.plans|
    ensures Conserved(ConsumePlans(bk, inboundLine, from, left).0)
    decreases |bk.plans| - from
  {
    if from < |bk.plans| && left > 0.0 {
      var p := bk.plans[from];
      var take := Min(left, p.planned - p.consumed);
      if p.inboundLine != inboundLine || p.status != Planned || take <= 0.0 {
        ConsumePlansKeeps(bk, inboundLine, from + 1, left);
      } else {
        ConsumeKeeps(bk, from, take);
        ConsumePlansKeeps(Consume(bk, from, take), inboundLine, from + 1, left - take);
      }
    }
  }

  lemma ReceiveRowKeeps(bk: Book, inboundLine: string, quantity: real, order: seq<string>)
    requires Conserved(bk) && NoDuplicates(order)
    ensures Conserved(ReceiveRow(bk, inboundLine, quantity, order).0)
  {
    ConsumePlansKeeps(bk, inboundLine, 0, quantity);
    var (consumed, left) := ConsumePlans(bk, inboundLine, 0, quantity);
    FindDemandFits(consumed, order, left);
    RouteKeeps(consumed, FindDemand(consumed, order, left));
  }

  /** The clamp at zero never bites here either: the line has at least the plan's open quantity allocated. */
  lemma GiveBackIsExact(bk: Book, i: nat)
    requires Conserved(bk) && i < |bk.plans| && bk.plans[i].status == Planned
    ensures var p := bk.plans[i];
        p.line in bk.lines && bk.lines[p.line].allocatedQuantity >= p.planned - p.consumed > 0.0
  {
    var p := bk.plans[i];
    assert PlanSound(bk, p) && LineAgrees(bk, p.line);
    ClaimsNotNegative(bk, p.line);
    forall k | 0 <= k < |bk.plans| ensures PlanOnLine(p.line)(bk.plans[k]) >= 0.0 { assert PlanSound(bk, bk.plans[k]); }
    SumAtLeastTerm(bk.plans, i, PlanOnLine(p.line));
  }

  lemma DropOnePlan(bk: Book, i: nat)
    requires Conserved(bk) && i < |bk.plans| && bk.plans[i].status == Planned
    ensures var p := bk.plans[i]; var after := bk.(plans := bk.plans[i := p.(status := Cancelled)]);
      && ReservationsSound(after) && BalancesAgree(after) && LinesAgreeBut(after, Some(p.line), None)
      && Claims(after, p.line) == Claims(bk, p.line) - (p.planned - p.consumed)
  {
    var p := bk.plans[i];
    var dropped := p.(status := Cancelled);
    var after := bk.(plans := bk.plans[i := dropped]);
    SoundCarries(bk, after);
    BalancesCarry(bk, after);
    forall x | x in after.lines && IsOpen(after, after.lines[x].delivery) && x != p.line ensures LineAgrees(after, x) {
      assert LineAgrees(bk, x);
      SumUpdate(bk.plans, i, dropped, PlanOnLine(x));
    }
    SumUpdate(bk.plans, i, dropped, PlanOnLine(p.line));
  }

  lemma GiveBackKeeps(bk: Book, i: nat)
    requires Conserved(bk) && i < |bk.plans| && bk.plans[i].status == Planned
    ensures Conserved(GiveBackPlan(bk, i))
  {
    var p := bk.plans[i];
    GiveBackIsExact(bk, i);
    DropOnePlan(bk, i);
    assert PlanSound(bk, p) && LineAgrees(bk, p.line);
    var l := bk.lines[p.line];
    LineChanges(bk.(plans := bk.plans[i := p.(status := Cancelled)]), p.line,
        l.(allocatedQuantity := l.allocatedQuantity - (p.planned - p.consumed)));
  }

  lemma {:induction false} CancelInboundKeeps(bk: Book, inbound: string, n: nat)
    requires Conserved(bk) && n <= |bk.plans|
    ensures Conserved(CancelInboundPlans(bk, inbound, n))
    decreases n
  {
    if n > 0 {
      CancelInboundKeeps(bk, inbound, n - 1);
      var before := CancelInboundPlans(bk, inbound, n - 1);
      var p := before.plans[n - 1];
      if p.inbound == inbound && p.status == Planned { GiveBackKeeps(before, n - 1); }
    }
  }

  // ---------------------------------------------------------------- opening, splitting, reducing

  lemma NothingClaimsUnknownLine(bk: Book, line: string)
    requires ReservationsSound(bk) && line !in bk.lines
    ensures Claims(bk, line) == 0.0
  {
    forall k | 0 <= k < |bk.allocations|
      ensures OnLine(line)(bk.allocations[k]) == 0.0
    {
      assert AllocationSound(bk, bk.allocations[k]);
    }
    forall k | 0 <= k < |bk.plans| ensures PlanOnLine(line)(bk.plans[k]) == 0.0 { assert PlanSound(bk, bk.plans[k]); }
    forall k | 0 <= k < |bk.requests|
      ensures RequestOnLine(line)(bk.requests[k]) == 0.0
    {
      assert RequestSound(bk, bk.requests[k]);
    }
    SumZero(bk.allocations, OnLine(line));
    SumZero(bk.plans, PlanOnLine(line));
    SumZero(bk.requests, RequestOnLine(line));
  }

  lemma {:induction false} SumZero<T>(s: seq<T>, f: T -> real)
    requires forall i :: 0 <= i < |s| ==> f(s[i]) == 0.0
    ensures Sum(s, f) == 0.0
  {
    if |s| > 0 { SumZero(s[..|s| - 1], f); }
  }

  lemma OpenDeliveryKeeps(bk: Book, delivery: string)
    requires Conserved(bk) && FreshDelivery(bk, delivery)
    ensures Conserved(OpenDelivery(bk, delivery))
  {
    var after := OpenDelivery(bk, delivery);
    SoundCarries(bk, after);
    BalancesCarry(bk, after);
    forall x | x in after.lines && IsOpen(after, after.lines[x].delivery)
      ensures LineAgrees(after, x)
    {
      assert LineAgrees(bk, x);
    }
  }

  /** A new line agrees exactly when it claims to hold nothing. */
  lemma AddLineKeeps(bk: Book, delivery: string, line: string, l: Line)
    requires Conserved(bk) && IsOpen(bk, delivery) && line !in bk.lines && l.delivery == delivery && l.requested >= 0.0
    requires l.issued >= 0.0
    ensures Conserved(AddLine(bk, delivery, line, l)) <==> l.allocatedQuantity == 0.0
  {
    var after := AddLine(bk, delivery, line, l);
    NothingClaimsUnknownLine(bk, line);
    SoundCarries(bk, after);
    BalancesCarry(bk, after);
    forall x | x in after.lines && IsOpen(after, after.lines[x].delivery) && x != line
      ensures LineAgrees(after, x)
    {
      assert LineAgrees(bk, x);
    }
    if Conserved(after) { assert LineAgrees(after, line); }
  }

  /** That much of the line is neither allocated nor issued. */
  predicate MayLower(bk: Book, line: string, quantity: real) {
    line in bk.lines && 0.0 < quantity &&
        bk.lines[line].allocatedQuantity + bk.lines[line].issued + quantity <= bk.lines[line].requested
  }

  lemma ReduceKeeps(bk: Book, line: string, quantity: real)
    requires Conserved(bk)
    ensures Conserved(ReduceLine(bk, line, quantity))
    ensures ReduceLine(bk, line, quantity) == if MayLower(bk, line, quantity)
        then bk.(lines := bk.lines[line := bk.lines[line].(requested := bk.lines[line].requested - quantity)]) else bk
  {
    if line in bk.lines &&
      0.0 < quantity <= bk.lines[line].requested - bk.lines[line].issued - bk.lines[line].allocatedQuantity {
      if IsOpen(bk, bk.lines[line].delivery) { assert LineAgrees(bk, line); }
      RequestedChanges(bk, line, bk.lines[line].requested - quantity);
    }
  }

  /** A line's requested quantity may go down to what is allocated. */
  lemma RequestedChanges(bk: Book, line: string, requested: real)
    requires Conserved(bk) && line in bk.lines
    requires (IsOpen(bk, bk.lines[line].delivery) ==> bk.lines[line].allocatedQuantity <= requested)
    ensures Conserved(bk.(lines := bk.lines[line := bk.lines[line].(requested := requested)]))
  {
    var l := bk.lines[line];
    if IsOpen(bk, l.delivery) {
      assert LineAgrees(bk, line);
      LineChanges(bk, line, l.(requested := requested));
    } else {
      var after := bk.(lines := bk.lines[line := l.(requested := requested)]);
      SoundCarries(bk, after);
      BalancesCarry(bk, after);
      forall x | x in after.lines && IsOpen(after, after.lines[x].delivery)
        ensures LineAgrees(after, x)
      {
        assert LineAgrees(bk, x);
      }
    }
  }

  /** A line of an open delivery nothing is allocated to can go away: no reservation serves it. */
  lemma DeletingKeeps(bk: Book, line: string)
    requires Conserved(bk) && line in bk.lines && IsOpen(bk, bk.lines[line].delivery)
    requires bk.lines[line].allocatedQuantity <= 0.0
    ensures Conserved(bk.(lines := bk.lines - {line}))
  {
    var after := bk.(lines := bk.lines - {line});
    assert LineAgrees(bk, line);
    NothingServed(bk, line);
    forall k | 0 <= k < |after.allocations|
      ensures AllocationSound(after, after.allocations[k])
    {
      assert AllocationSound(bk, bk.allocations[k]);
    }
    forall k | 0 <= k < |after.plans| ensures PlanSound(after, after.plans[k]) { assert PlanSound(bk, bk.plans[k]); }
    forall k | 0 <= k < |after.requests|
      ensures RequestSound(after, after.requests[k])
    {
      assert RequestSound(bk, bk.requests[k]);
    }
    BalancesCarry(bk, after);
    forall x | x in after.lines && IsOpen(after, after.lines[x].delivery)
      ensures LineAgrees(after, x)
    {
      assert LineAgrees(bk, x);
    }
  }

  lemma NothingServed(bk: Book, line: string)
    requires ReservationsSound(bk) && Claims(bk, line) <= 0.0
    ensures forall i :: 0 <= i < |bk.allocations| && !bk.allocations[i].cancelled ==> bk.allocations[i].line != line
    ensures forall i :: 0 <= i < |bk.plans| && bk.plans[i].status == Planned ==> bk.plans[i].line != line
    ensures forall i :: 0 <= i < |bk.requests| && !bk.requests[i].cancelled ==> bk.requests[i].line != line
  {
    ClaimsNotNegative(bk, line);
    forall k | 0 <= k < |bk.allocations|
      ensures OnLine(line)(bk.allocations[k]) >= 0.0
    {
      assert AllocationSound(bk, bk.allocations[k]);
    }
    forall k | 0 <= k < |bk.plans| ensures PlanOnLine(line)(bk.plans[k]) >= 0.0 { assert PlanSound(bk, bk.plans[k]); }
    forall k | 0 <= k < |bk.requests|
      ensures RequestOnLine(line)(bk.requests[k]) >= 0.0
    {
      assert RequestSound(bk, bk.requests[k]);
    }
    forall i | 0 <= i < |bk.allocations| && !bk.allocations[i].cancelled ensures bk.allocations[i].line != line {
      SumAtLeastTerm(bk.allocations, i, OnLine(line));
      assert AllocationSound(bk, bk.allocations[i]);
    }
    forall i | 0 <= i < |bk.plans| && bk.plans[i].status == Planned ensures bk.plans[i].line != line {
      SumAtLeastTerm(bk.plans, i, PlanOnLine(line));
      assert PlanSound(bk, bk.plans[i]);
    }
    forall i | 0 <= i < |bk.requests| && !bk.requests[i].cancelled ensures bk.requests[i].line != line {
      SumAtLeastTerm(bk.requests, i, RequestOnLine(line));
      assert RequestSound(bk, bk.requests[i]);
    }
  }

  lemma MoveOneKeeps(bk: Book, delivery: string, target: string, m: Move)
    requires Conserved(bk) && IsOpen(bk, delivery) && IsOpen(bk, target) && CanMove(bk, delivery, m)
    ensures Conserved(TakeOff(AddLine(bk, target, m.newLine, Line(target, m.quantity, 0.0, 0.0, 0.0, 0.0)), m.line,
        m.quantity))
  {
    AddLineKeeps(bk, target, m.newLine, Line(target, m.quantity, 0.0, 0.0, 0.0, 0.0));
    var mid := AddLine(bk, target, m.newLine, Line(target, m.quantity, 0.0, 0.0, 0.0, 0.0));
    if mid.lines[m.line].requested - m.quantity <= 0.0 {
      DeletingKeeps(mid, m.line);
    } else {
      RequestedChanges(mid, m.line, mid.lines[m.line].requested - m.quantity);
    }
  }

  lemma {:induction false} MoveLinesKeeps(bk: Book, delivery: string, target: string, moves: seq<Move>)
    requires Conserved(bk) && IsOpen(bk, delivery) && IsOpen(bk, target) && delivery != target
    requires forall i :: 0 <= i < |moves| ==> CanMove(bk, delivery, moves[i])
    requires forall i, j ::
        0 <= i < j < |moves| ==> moves[i].line != moves[j].line && moves[i].newLine != moves[j].newLine
    ensures Conserved(MoveLines(bk, target, moves))
    decreases |moves|
  {
    if |moves| > 0 {
      var m := moves[0];
      MoveOneKeeps(bk, delivery, target, m);
      var next := TakeOff(AddLine(bk, target, m.newLine, Line(target, m.quantity, 0.0, 0.0, 0.0, 0.0)), m.line,
          m.quantity);
      forall i | 0 <= i < |moves[1..]|
        ensures CanMove(next, delivery, moves[1..][i])
      {
        assert CanMove(bk, delivery, moves[i + 1]);
      }
      MoveLinesKeeps(next, delivery, target, moves[1..]);
    }
  }

  lemma SplitKeeps(bk: Book, delivery: string, target: string, moves: seq<Move>)
    requires Conserved(bk)
    ensures Conserved(SplitDelivery(bk, delivery, target, moves))
  {
    if CanSplit(bk, delivery, target, moves) {
      OpenDeliveryKeeps(bk, target);
      var next := OpenDelivery(bk, target);
      forall i | 0 <= i < |moves| ensures CanMove(next, delivery, moves[i]) { assert CanMove(bk, delivery, moves[i]); }
      MoveLinesKeeps(next, delivery, target, moves);
    }
  }

  lemma StockArrivesKeeps(bk: Book, b: string, quantity: real)
    requires Conserved(bk)
    ensures Conserved(StockArrives(bk, b, quantity))
  {
    if quantity > 0.0 {
      var after := StockArrives(bk, b, quantity);
      SoundCarries(bk, after);
      if b !in bk.balances { NothingOnUnknownBalance(bk, b); } else { assert BalanceAgrees(bk, b); }
      forall x | x in after.balances ensures BalanceAgrees(after, x) { if x != b { assert BalanceAgrees(bk, x); } }
      forall x | x in after.lines && IsOpen(after, after.lines[x].delivery)
        ensures LineAgrees(after, x)
      {
        assert LineAgrees(bk, x);
      }
    }
  }

  lemma NothingOnUnknownBalance(bk: Book, b: string)
    requires ReservationsSound(bk) && b !in bk.balances
    ensures Sum(bk.allocations, OnBalance(b)) == 0.0
  {
    forall k | 0 <= k < |bk.allocations|
      ensures OnBalance(b)(bk.allocations[k]) == 0.0
    {
      assert AllocationSound(bk, bk.allocations[k]);
    }
    SumZero(bk.allocations, OnBalance(b));
  }

  // ---------------------------------------------------------------- every run

  /** A query never answers with the same delivery line twice. */
  ghost predicate ProperStep(step: Step) {
    match step
    case DoPlanInbound(_, rows) => forall i :: 0 <= i < |rows| ==> NoDuplicates(rows[i].order)
    case DoReceiveRow(_, _, order) => NoDuplicates(order)
    case _ => true
  }

  lemma StepKeeps(bk: Book, step: Step)
    requires Conserved(bk) && ProperStep(step)
    ensures Conserved(Perform(bk, step))
  {
    match step
    case DoStockArrives(b, q) => StockArrivesKeeps(bk, b, q);
    case DoNewDelivery(d, l, q) =>
      if FreshDelivery(bk, d) && l !in bk.lines && q > 0.0 {
        OpenDeliveryKeeps(bk, d);
        AddLineKeeps(OpenDelivery(bk, d), d, l, Line(d, q, 0.0, 0.0, 0.0, 0.0));
      }
    case DoAllocate(d, candidates) =>
      if IsOpen(bk, d) { AllocateLinesKeeps(bk, d, bk.deliveries[d].items, candidates); }
    case DoPlanInbound(inbound, rows) => PlanInboundKeeps(bk, inbound, rows);
    case DoReceiveRow(inboundLine, q, order) => ReceiveRowKeeps(bk, inboundLine, q, order);
    case DoCancelInbound(inbound) => CancelInboundKeeps(bk, inbound, |bk.plans|);
    case DoCancelDelivery(d) => CancelKeeps(bk, d);
    case DoSplit(d, target, moves) => SplitKeeps(bk, d, target, moves);
    case DoReduce(l, q) => ReduceKeeps(bk, l, q);
  }

  /** Conservation holds after every run that starts from it, whatever the order of the operations. */
  lemma {:induction false} RunKeeps(bk: Book, steps: seq<Step>)
    requires Conserved(bk) && forall i :: 0 <= i < |steps| ==> ProperStep(steps[i])
    ensures Conserved(Run(bk, steps))
    decreases |steps|
  {
    if |steps| > 0 {
      StepKeeps(bk, steps[0]);
      RunKeeps(Perform(bk, steps[0]), steps[1..]);
    }
  }

  // ---------------------------------------------------------------- re-created deliveries

  ghost predicate ProperCopies(bk: Book, kept: seq<Copy>) {
    && (forall i :: 0 <= i < |kept| ==> kept[i].line in bk.lines && kept[i].newLine !in bk.lines)
    && (forall i, j :: 0 <= i < j < |kept| ==> kept[i].newLine != kept[j].newLine)
  }

  /** Copying lines adds them and touches nothing else. */
  lemma {:induction false} CopyLinesFrame(bk: Book, target: string, kept: seq<Copy>)
    requires target in bk.deliveries && ProperCopies(bk, kept)
    ensures var after := CopyLines(bk, target, kept);
      && after.allocations == bk.allocations && after.plans == bk.plans && after.requests == bk.requests &&
          after.balances == bk.balances
      && (forall d :: IsOpen(after, d) <==> IsOpen(bk, d))
      && (forall l :: l in bk.lines ==> l in after.lines && after.lines[l] == bk.lines[l])
    decreases |kept|
  {
    if |kept| > 0 {
      var next := AddLine(bk, target, kept[0].newLine, bk.lines[kept[0].line].(delivery := target));
      CopyLinesFrame(next, target, kept[1..]);
    }
  }

  lemma {:induction false} CopyLinesAdds(bk: Book, target: string, kept: seq<Copy>)
    requires target in bk.deliveries && ProperCopies(bk, kept)
    ensures var after := CopyLines(bk, target, kept);
      && (forall i :: 0 <= i < |kept| ==>
          kept[i].newLine in after.lines && after.lines[kept[i].newLine] == bk.lines[kept[i].line].(delivery := target))
      && (forall l :: l in after.lines && l !in bk.lines ==> exists i :: 0 <= i < |kept| && kept[i].newLine == l)
    decreases |kept|
  {
    if |kept| > 0 {
      var next := AddLine(bk, target, kept[0].newLine, bk.lines[kept[0].line].(delivery := target));
      CopyLinesFrame(next, target, kept[1..]);
      CopyLinesAdds(next, target, kept[1..]);
      var after := CopyLines(bk, target, kept);
      forall i | 0 <= i < |kept|
        ensures kept[i].newLine in after.lines
        ensures after.lines[kept[i].newLine] == bk.lines[kept[i].line].(delivery := target)
      {
        if i > 0 { assert kept[1..][i - 1] == kept[i]; }
      }
      forall l | l in after.lines && l !in bk.lines ensures exists i :: 0 <= i < |kept| && kept[i].newLine == l {
        if l != kept[0].newLine {
          var i :| 0 <= i < |kept[1..]| && kept[1..][i].newLine == l;
          assert kept[i + 1].newLine == l;
        }
      }
    }
  }

  lemma CopiesAgreeExactly(bk: Book, target: string, kept: seq<Copy>)
    requires Conserved(bk) && IsOpen(bk, target) && ProperCopies(bk, kept)
    requires forall i ::
        0 <= i < |kept| ==>
          && 0.0 <= bk.lines[kept[i].line].allocatedQuantity <= bk.lines[kept[i].line].requested
          && bk.lines[kept[i].line].issued >= 0.0
    ensures Conserved(CopyLines(bk, target, kept)) <==>
        forall i :: 0 <= i < |kept| ==> bk.lines[kept[i].line].allocatedQuantity == 0.0
  {
    var after := CopyLines(bk, target, kept);
    CopyLinesFrame(bk, target, kept);
    CopyLinesAdds(bk, target, kept);
    SoundCarries(bk, after);
    BalancesCarry(bk, after);
    forall i | 0 <= i < |kept|
      ensures LineAgrees(after, kept[i].newLine) <==> bk.lines[kept[i].line].allocatedQuantity == 0.0
    {
      NothingClaimsUnknownLine(bk, kept[i].newLine);
    }
    forall l | l in bk.lines && IsOpen(bk, bk.lines[l].delivery)
      ensures LineAgrees(after, l)
    {
      assert LineAgrees(bk, l);
    }
    if Conserved(after) {
      forall i | 0 <= i < |kept|
        ensures bk.lines[kept[i].line].allocatedQuantity == 0.0
      {
        assert LineAgrees(after, kept[i].newLine);
      }
    }
  }

  /** Re-creating a delivery copies what its lines say is allocated, though the reservations behind it are gone:
      conservation survives exactly when no kept line had anything allocated. */
  lemma RebuildKeepsExactly(bk: Book, delivery: string, target: string, kept: seq<Copy>)
    requires Conserved(bk) && CanRebuild(bk, delivery, target, kept)
    ensures Conserved(RebuildDelivery(bk, delivery, target, kept))
       <==> forall i :: 0 <= i < |kept| ==> bk.lines[kept[i].line].allocatedQuantity == 0.0
  {
    CancelKeeps(bk, delivery);
    var closed := CancelDelivery(bk, delivery);
    OpenDeliveryKeeps(closed, target);
    forall i | 0 <= i < |kept|
      ensures 0.0 <= bk.lines[kept[i].line].allocatedQuantity <= bk.lines[kept[i].line].requested
      ensures bk.lines[kept[i].line].issued >= 0.0
    {
      assert LineAgrees(bk, kept[i].line);
      ClaimsNotNegative(bk, kept[i].line);
    }
    CopiesAgreeExactly(OpenDelivery(closed, target), target, kept);
  }

  const NO_RESERVATIONS: Book := Book(map[], map[], map[], [], [], [])

  /** A new delivery whose line is planned to be served from the dock. */
  function PlannedFromDock(delivery: string, line: string, quantity: real): seq<Step> {
    [DoNewDelivery(delivery, line, quantity), DoPlanInbound("inbound", [InboundRow("row", quantity, 0.0, [line])])]
  }

  lemma OneDelivery(delivery: string, line: string, quantity: real)
    requires quantity > 0.0
    ensures var bk := NewDelivery(NO_RESERVATIONS, delivery, line, quantity);
      && bk.deliveries == map[delivery := Delivery(true, [line])]
      && bk.lines == map[line := Line(delivery, quantity, 0.0, 0.0, 0.0, 0.0)]
      && bk.plans == [] && bk.allocations == []
  {
    var bk := NewDelivery(NO_RESERVATIONS, delivery, line, quantity);
    assert FreshDelivery(NO_RESERVATIONS, delivery);
    assert OpenDelivery(NO_RESERVATIONS, delivery).deliveries == map[delivery := Delivery(true, [])];
    assert [] + [line] == [line];
    assert bk.deliveries[delivery] == Delivery(true, [line]);
    assert bk.deliveries == map[delivery := Delivery(true, [line])];
  }

  lemma FilterOne<T>(x: T, keep: T -> bool)
    ensures Filter([x], keep) == if keep(x) then [x] else []
  {
    assert [x][1..] == [];
  }

  lemma OneMatch(bk: Book, delivery: string, line: string, quantity: real)
    requires quantity > 0.0 && bk.deliveries == map[delivery := Delivery(true, [line])]
    requires bk.lines == map[line := Line(delivery, quantity, 0.0, 0.0, 0.0, 0.0)]
    ensures FindDemand(bk, [line], quantity) == [Match(line, quantity)]
  {
    FilterOne(line, StillWants(bk));
    assert StillWants(bk)(line);
    assert [line][1..] == [];
    assert Matches(bk.lines, [line], quantity) == [Match(line, quantity)] + Matches(bk.lines, [], 0.0);
  }

  lemma OnePlan(bk: Book, delivery: string, line: string, quantity: real)
    requires quantity > 0.0 && bk.deliveries == map[delivery := Delivery(true, [line])] && bk.plans == []
    requires bk.lines == map[line := Line(delivery, quantity, 0.0, 0.0, 0.0, 0.0)]
    ensures var planned := PlanMatches(bk, "inbound", "row", [Match(line, quantity)]);
      && planned.deliveries == bk.deliveries
      && planned.lines == map[line := Line(delivery, quantity, quantity, 0.0, 0.0, 0.0)]
      && PlanInbound(bk, "inbound", [InboundRow("row", quantity, 0.0, [line])]) == planned
  {
    var rows := [InboundRow("row", quantity, 0.0, [line])];
    OneMatch(bk, delivery, line, quantity);
    assert [Match(line, quantity)][1..] == [] && rows[1..] == [];
    assert Sum(bk.plans, PlannedFor("row")) == 0.0;
  }

  lemma TwoSteps(bk: Book, first: Step, second: Step)
    ensures Run(bk, [first, second]) == Perform(Perform(bk, first), second)
  {
    assert [first, second][1..] == [second] && [second][1..] == [];
    assert Run(Perform(bk, first), [second]) == Perform(Perform(bk, first), second);
  }

  lemma DockClaims(delivery: string, line: string, quantity: real)
    requires quantity > 0.0
    ensures var bk := Run(NO_RESERVATIONS, PlannedFromDock(delivery, line, quantity));
      && bk.deliveries == map[delivery := Delivery(true, [line])]
      && bk.lines == map[line := Line(delivery, quantity, quantity, 0.0, 0.0, 0.0)]
  {
    var steps, rows := PlannedFromDock(delivery, line, quantity), [InboundRow("row", quantity, 0.0, [line])];
    var created := NewDelivery(NO_RESERVATIONS, delivery, line, quantity);
    OneDelivery(delivery, line, quantity);
    var planned := PlanMatches(created, "inbound", "row", [Match(line, quantity)]);
    OnePlan(created, delivery, line, quantity);
    assert PlanInbound(created, "inbound", rows) == planned;
    TwoSteps(NO_RESERVATIONS, steps[0], steps[1]);
    assert steps == [steps[0], steps[1]];
  }

  /** A delivery whose line is claimed by a dock plan loses the claim when it is re-created, and the copy still shows
      it. */
  lemma RebuildBreaksPlannedDelivery(delivery: string, line: string, quantity: real, target: string, newLine: string)
    requires quantity > 0.0 && delivery != target && line != newLine
    ensures var bk := Run(NO_RESERVATIONS, PlannedFromDock(delivery, line, quantity));
      Conserved(bk) && !Conserved(RebuildDelivery(bk, delivery, target, [Copy(line, newLine)]))
  {
    var bk, kept := Run(NO_RESERVATIONS, PlannedFromDock(delivery, line, quantity)), [Copy(line, newLine)];
    DockClaims(delivery, line, quantity);
    RunKeeps(NO_RESERVATIONS, PlannedFromDock(delivery, line, quantity));
    RebuildKeepsExactly(bk, delivery, target, kept);
    assert bk.lines[kept[0].line].allocatedQuantity != 0.0;
  }
}
