/** What cancelling and splitting an outbound delivery do to everything that hangs on it. */
module DeliveryEffects {
  import opened Basics
  import opened Sums
  import opened Reservations
  import opened ReservationProofs

  // ---------------------------------------------------------------- cancelling

  /** What the delivery holds of a balance. */
  function HeldFor(delivery: string, b: string): Allocation -> real {
    (a: Allocation) => if a.delivery == delivery && !a.cancelled && a.balance == b then a.quantity else 0.0
  }

  function Dropped(a: Allocation, delivery: string): Allocation {
    if a.delivery == delivery then a.(cancelled := true) else a
  }

  ghost predicate BalanceIsFreed(bk: Book, after: Book, delivery: string, n: nat, b: string)
    requires n <= |bk.allocations|
  {
    && b in bk.balances && b in after.balances
    && var freed := Sum(bk.allocations[..n], HeldFor(delivery, b));
      after.balances[b] == bk.balances[b].(allocatedQuantity := bk.balances[b].allocatedQuantity - freed,
          available := bk.balances[b].available + freed)
  }

  /** The first `n` allocations are looked at. */
  ghost predicate IsReleased(bk: Book, after: Book, delivery: string, n: nat)
    requires n <= |bk.allocations|
  {
    && after == bk.(allocations := after.allocations, balances := after.balances)
    && |after.allocations| == |bk.allocations|
    && (forall i :: 0 <= i < n ==> after.allocations[i] == Dropped(bk.allocations[i], delivery))
    && (forall i :: n <= i < |bk.allocations| ==> after.allocations[i] == bk.allocations[i])
    && after.balances.Keys == bk.balances.Keys
    && forall b <- bk.balances.Keys :: BalanceIsFreed(bk, after, delivery, n, b)
  }

  lemma NothingReleased(bk: Book, delivery: string)
    ensures IsReleased(bk, bk, delivery, 0)
  {
    assert bk.allocations[..0] == [];
    forall b | b in bk.balances.Keys ensures BalanceIsFreed(bk, bk, delivery, 0, b) {}
  }

  /** The allocation's balance holds at least its quantity, and the rest of it is available. */
  ghost predicate CanRelease(bk: Book, delivery: string, i: nat) {
    i < |bk.allocations| && (!bk.allocations[i].cancelled && bk.allocations[i].delivery == delivery ==>
      var a := bk.allocations[i];
      a.balance in bk.balances && bk.balances[a.balance].allocatedQuantity >= a.quantity &&
          bk.balances[a.balance].available ==
            bk.balances[a.balance].quantity - bk.balances[a.balance].allocatedQuantity)
  }

  lemma ReleasedNext(bk: Book, before: Book, after: Book, delivery: string, n: nat)
    requires n < |bk.allocations| && IsReleased(bk, before, delivery, n) && CanRelease(before, delivery, n)
    requires after == if before.allocations[n].delivery == delivery && !before.allocations[n].cancelled
        then ReleaseAllocation(before, n) else before
    ensures IsReleased(bk, after, delivery, n + 1)
  {
    assert bk.allocations[..n + 1][..n] == bk.allocations[..n];
    forall b | b in bk.balances.Keys ensures BalanceIsFreed(bk, after, delivery, n + 1, b) {
      assert BalanceIsFreed(bk, before, delivery, n, b);
    }
  }

  lemma ConservedCanRelease(bk: Book, delivery: string, n: nat)
    requires Conserved(bk) && n < |bk.allocations|
    ensures CanRelease(ReleaseAllocations(bk, delivery, n), delivery, n)
  {
    var before := ReleaseAllocations(bk, delivery, n);
    ReleaseAllKeeps(bk, delivery, n);
    if !before.allocations[n].cancelled {
      ReleaseIsExact(before, n);
      assert AllocationSound(before, before.allocations[n]);
      assert BalanceAgrees(before, before.allocations[n].balance);
    }
  }

  lemma {:induction false} AllocationsAreReleasedUpTo(bk: Book, delivery: string, n: nat)
    requires n <= |bk.allocations|
    requires forall k: nat :: k < n ==> CanRelease(ReleaseAllocations(bk, delivery, k), delivery, k)
    ensures IsReleased(bk, ReleaseAllocations(bk, delivery, n), delivery, n)
  {
    if n == 0 {
      NothingReleased(bk, delivery);
    } else {
      var k := n - 1;
      AllocationsAreReleasedUpTo(bk, delivery, k);
      assert CanRelease(ReleaseAllocations(bk, delivery, k), delivery, k);
      ReleasedNext(bk, ReleaseAllocations(bk, delivery, k), ReleaseAllocations(bk, delivery, n), delivery, k);
    }
  }

  /** Exactly the delivery's own allocations are cancelled, and every balance gets back exactly what they held of it. */
  lemma AllocationsAreReleased(bk: Book, delivery: string)
    requires Conserved(bk)
    ensures IsReleased(bk, ReleaseAllocations(bk, delivery, |bk.allocations|), delivery, |bk.allocations|)
  {
    forall k: nat | k < |bk.allocations|
      ensures CanRelease(ReleaseAllocations(bk, delivery, k), delivery, k)
    {
      ConservedCanRelease(bk, delivery, k);
    }
    AllocationsAreReleasedUpTo(bk, delivery, |bk.allocations|);
  }

  function PlanAfter(p: Plan, delivery: string): Plan {
    if p.delivery != delivery || p.status != Planned then p else p.(status := Cancelled)
  }

  function RequestAfter(r: Request, delivery: string): Request {
    if r.delivery != delivery then r else r.(cancelled := true)
  }

  /** Cancelling closes the delivery, releases its allocations, withdraws its open plans and its requests, and leaves
      the lines and everything of other deliveries alone. */
  lemma DeliveryIsCancelled(bk: Book, delivery: string)
    requires Conserved(bk) && IsOpen(bk, delivery)
    ensures var after := CancelDelivery(bk, delivery);
      && after.lines == bk.lines
      && |after.allocations| == |bk.allocations|
      && (forall i :: 0 <= i < |bk.allocations| ==> after.allocations[i] == Dropped(bk.allocations[i], delivery))
      && after.balances.Keys == bk.balances.Keys
      && (forall b <- bk.balances.Keys :: BalanceIsFreed(bk, after, delivery, |bk.allocations|, b))
      && after.deliveries == bk.deliveries[delivery := bk.deliveries[delivery].(open := false)]
      && |after.plans| == |bk.plans| && |after.requests| == |bk.requests|
      && (forall i :: 0 <= i < |bk.plans| ==> after.plans[i] == PlanAfter(bk.plans[i], delivery))
      && (forall i :: 0 <= i < |bk.requests| ==> after.requests[i] == RequestAfter(bk.requests[i], delivery))
  {
    AllocationsAreReleased(bk, delivery);
    var mid, after := ReleaseAllocations(bk, delivery, |bk.allocations|), CancelDelivery(bk, delivery);
    forall b | b in bk.balances.Keys ensures BalanceIsFreed(bk, after, delivery, |bk.allocations|, b) {
      assert BalanceIsFreed(bk, mid, delivery, |bk.allocations|, b);
    }
  }

  // ---------------------------------------------------------------- splitting

  /** What may leave a line: nothing that is allocated, picked, packed or issued. */
  ghost predicate MayMove(bk: Book, delivery: string, m: Move) {
    && m.line in bk.lines && m.newLine !in bk.lines && m.quantity > 0.0
    && var l := bk.lines[m.line];
      && l.delivery == delivery
      && l.allocatedQuantity + m.quantity <= l.requested && l.picked + m.quantity <= l.requested
      && l.packed + m.quantity <= l.requested && l.issued + m.quantity <= l.requested
  }

  ghost predicate DistinctMoves(moves: seq<Move>) {
    forall i, j :: 0 <= i < j < |moves| ==> moves[i].line != moves[j].line && moves[i].newLine != moves[j].newLine
  }

  /** Some line of the delivery does not move away as a whole. */
  ghost predicate Remains(bk: Book, delivery: string, moves: seq<Move>)
    requires delivery in bk.deliveries
  {
    exists l <- bk.deliveries[delivery].items :: l in bk.lines && RemainsOf(bk, moves, l)
  }

  ghost predicate RemainsOf(bk: Book, moves: seq<Move>, l: string)
    requires l in bk.lines
  {
    if exists i :: 0 <= i < |moves| && moves[i].line == l
    then exists i :: 0 <= i < |moves| && moves[i].line == l && moves[i].quantity != bk.lines[l].requested
    else bk.lines[l].requested != 0.0
  }

  ghost predicate MaySplit(bk: Book, delivery: string, target: string, moves: seq<Move>) {
    && IsOpen(bk, delivery) && FreshDelivery(bk, target) && DistinctMoves(moves)
    && (forall m <- moves :: MayMove(bk, delivery, m)) && Remains(bk, delivery, moves)
  }

  lemma {:induction false} MovedIs(moves: seq<Move>, i: nat)
    requires DistinctMoves(moves) && i < |moves|
    ensures MovedOf(moves, moves[i].line) == moves[i].quantity
    decreases |moves|
  {
    if i > 0 { MovedIs(moves[1..], i - 1); }
  }

  lemma {:induction false} NotMoved(moves: seq<Move>, l: string)
    requires forall i :: 0 <= i < |moves| ==> moves[i].line != l
    ensures MovedOf(moves, l) == 0.0
    decreases |moves|
  {
    if |moves| > 0 { NotMoved(moves[1..], l); }
  }

  lemma RemainsIs(bk: Book, moves: seq<Move>, l: string)
    requires DistinctMoves(moves) && l in bk.lines
    ensures RemainsOf(bk, moves, l) <==> bk.lines[l].requested != MovedOf(moves, l)
  {
    if i :| 0 <= i < |moves| && moves[i].line == l {
      MovedIs(moves, i);
    } else {
      NotMoved(moves, l);
    }
  }

  lemma SplitIsAllowedExactly(bk: Book, delivery: string, target: string, moves: seq<Move>)
    ensures CanSplit(bk, delivery, target, moves) <==> MaySplit(bk, delivery, target, moves)
  {
    forall i | 0 <= i < |moves| ensures CanMove(bk, delivery, moves[i]) <==> MayMove(bk, delivery, moves[i]) {}
    if DistinctMoves(moves) {
      forall l | l in bk.lines ensures RemainsOf(bk, moves, l) <==> bk.lines[l].requested != MovedOf(moves, l) {
        RemainsIs(bk, moves, l);
      }
    }
  }

  function NewNames(moves: seq<Move>): (r: seq<string>)
    ensures |r| == |moves|
  {
    seq(|moves|, i requires 0 <= i < |moves| => moves[i].newLine)
  }

  /** The moved quantity stands on its new line, and what it left behind on the old one. */
  ghost predicate HasMoved(bk: Book, after: Book, target: string, m: Move) {
    && m.line in bk.lines
    && m.newLine in after.lines && after.lines[m.newLine] == Line(target, m.quantity, 0.0, 0.0, 0.0, 0.0)
    && (bk.lines[m.line].requested == m.quantity ==> m.line !in after.lines)
    && (bk.lines[m.line].requested != m.quantity ==>
        m.line in after.lines &&
        after.lines[m.line] == bk.lines[m.line].(requested := bk.lines[m.line].requested - m.quantity))
  }

  ghost predicate Apart(moves: seq<Move>, l: string) {
    forall i :: 0 <= i < |moves| ==> moves[i].line != l && moves[i].newLine != l
  }

  ghost predicate SameLine(bk: Book, after: Book, l: string) {
    (l in bk.lines <==> l in after.lines) && (l in bk.lines ==> after.lines[l] == bk.lines[l])
  }

  ghost predicate AreMoved(bk: Book, after: Book, target: string, moves: seq<Move>) {
    && target in bk.deliveries
    && after == bk.(lines := after.lines, deliveries := bk.deliveries[target :=
        bk.deliveries[target].(items := bk.deliveries[target].items + NewNames(moves))])
    && (forall i :: 0 <= i < |moves| ==> HasMoved(bk, after, target, moves[i]))
    && forall l: string :: Apart(moves, l) ==> SameLine(bk, after, l)
  }

  ghost predicate Movables(bk: Book, moves: seq<Move>) {
    && DistinctMoves(moves)
    && forall i :: 0 <= i < |moves| ==>
        && moves[i].line in bk.lines && moves[i].newLine !in bk.lines
        && 0.0 < moves[i].quantity <= bk.lines[moves[i].line].requested
  }

  lemma {:induction false} LinesAreMoved(bk: Book, target: string, moves: seq<Move>)
    requires target in bk.deliveries && Movables(bk, moves)
    ensures AreMoved(bk, MoveLines(bk, target, moves), target, moves)
    decreases |moves|
  {
    if |moves| == 0 {
      assert bk.deliveries[target].items + NewNames(moves) == bk.deliveries[target].items;
      assert bk.deliveries[target := bk.deliveries[target]] == bk.deliveries;
    } else {
      var m := moves[0];
      var next := TakeOff(AddLine(bk, target, m.newLine, Line(target, m.quantity, 0.0, 0.0, 0.0, 0.0)), m.line,
          m.quantity);
      LinesAreMoved(next, target, moves[1..]);
      MovedInTurn(bk, next, MoveLines(bk, target, moves), target, moves);
    }
  }

  lemma MovedInTurn(bk: Book, next: Book, after: Book, target: string, moves: seq<Move>)
    requires target in bk.deliveries && |moves| > 0 && Movables(bk, moves)
    requires var m := moves[0];
      next == TakeOff(AddLine(bk, target, m.newLine, Line(target, m.quantity, 0.0, 0.0, 0.0, 0.0)), m.line, m.quantity)
    requires AreMoved(next, after, target, moves[1..])
    ensures AreMoved(bk, after, target, moves)
  {
    var m := moves[0];
    assert NewNames(moves) == [m.newLine] + NewNames(moves[1..]);
    assert bk.deliveries[target].items + NewNames(moves) ==
        bk.deliveries[target].items + [m.newLine] + NewNames(moves[1..]);
    assert Apart(moves[1..], m.line) && Apart(moves[1..], m.newLine);
    assert SameLine(next, after, m.line) && SameLine(next, after, m.newLine);
    forall i | 0 <= i < |moves| ensures HasMoved(bk, after, target, moves[i]) {
      if i > 0 { assert HasMoved(next, after, target, moves[1..][i - 1]); }
    }
    forall l: string | Apart(moves, l) ensures SameLine(bk, after, l) {
      assert Apart(moves[1..], l);
      assert SameLine(next, after, l);
    }
  }

  /** A split moves the quantities to new lines of a new open delivery, and touches nothing else; it is done exactly
      when nothing that moves has been touched by a warehouse step and something remains. */
  lemma SplitMovesExactly(bk: Book, delivery: string, target: string, moves: seq<Move>)
    requires Conserved(bk)
    ensures var after := SplitDelivery(bk, delivery, target, moves);
      && (MaySplit(bk, delivery, target, moves) ==>
          AreMoved(bk.(deliveries := bk.deliveries[target := Delivery(true, [])]), after, target, moves))
      && (!MaySplit(bk, delivery, target, moves) ==> after == bk)
  {
    SplitIsAllowedExactly(bk, delivery, target, moves);
    if MaySplit(bk, delivery, target, moves) {
      forall i | 0 <= i < |moves|
        ensures moves[i].line in bk.lines && moves[i].newLine !in bk.lines
        ensures 0.0 < moves[i].quantity <= bk.lines[moves[i].line].requested
      {
        assert moves[i] in moves && LineAgrees(bk, moves[i].line);
      }
      LinesAreMoved(OpenDelivery(bk, target), target, moves);
    }
  }

  // ---------------------------------------------------------------- re-creating

  /** The old delivery is closed with its lines as they were, and every kept line stands on the new one with all its
      fields copied. */
  lemma RebuildCopies(bk: Book, delivery: string, target: string, kept: seq<Copy>)
    requires Conserved(bk) && CanRebuild(bk, delivery, target, kept)
    ensures var after := RebuildDelivery(bk, delivery, target, kept);
      && (forall l :: l in bk.lines ==> l in after.lines && after.lines[l] == bk.lines[l])
      && (forall i :: 0 <= i < |kept| ==> kept[i].newLine in after.lines)
      && (forall i :: 0 <= i < |kept| ==>
            after.lines[kept[i].newLine] == bk.lines[kept[i].line].(delivery := target))
      && (forall l :: l in after.lines && l !in bk.lines ==> exists i :: 0 <= i < |kept| && kept[i].newLine == l)
      && !IsOpen(after, delivery) && IsOpen(after, target)
  {
    CancelKeeps(bk, delivery);
    var emptied := OpenDelivery(CancelDelivery(bk, delivery), target);
    CopyLinesFrame(emptied, target, kept);
    CopyLinesAdds(emptied, target, kept);
  }
}
