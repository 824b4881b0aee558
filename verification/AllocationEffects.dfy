/** What an allocation leaves behind: whom it serves, from where, in which order, and what it does not touch. */
module AllocationEffects {
  import opened Basics
  import opened Sums
  import opened Reservations
  import opened ReservationProofs

  /** The allocations made since. */
  function Made(bk: Book, after: Book): seq<Allocation> {
    if |bk.allocations| <= |after.allocations| then after.allocations[|bk.allocations|..] else []
  }

  ghost predicate BalanceGives(bk: Book, after: Book, b: string) {
    && b in bk.balances && b in after.balances
    && var given := Sum(Made(bk, after), OnBalance(b));
      && after.balances[b] == bk.balances[b].(allocatedQuantity := bk.balances[b].allocatedQuantity + given,
            available := bk.balances[b].available - given)
      && given >= 0.0
  }

  /** Allocations are appended, and every balance is charged with exactly what they take from it. */
  ghost predicate Charged(bk: Book, after: Book) {
    && bk.allocations <= after.allocations
    && after.balances.Keys == bk.balances.Keys
    && (forall b <- bk.balances.Keys :: BalanceGives(bk, after, b))
    && (forall a <- Made(bk, after) :: !Drained(bk, a.balance))
    && after.deliveries == bk.deliveries && after.plans == bk.plans && after.requests == bk.requests
  }

  predicate Drained(bk: Book, b: string) { b in bk.balances ==> bk.balances[b].available <= 0.0 }

  ghost predicate AllDrained(bk: Book, candidates: seq<string>) { forall b <- candidates :: Drained(bk, b) }

  lemma Uncharged(bk: Book)
    ensures Charged(bk, bk) && Made(bk, bk) == []
  {
  }

  lemma MadeInTurn(bk: Book, mid: Book, after: Book)
    requires bk.allocations <= mid.allocations <= after.allocations
    ensures Made(bk, after) == Made(bk, mid) + Made(mid, after)
  {
  }

  lemma ChargedInTurn(bk: Book, mid: Book, after: Book)
    requires Charged(bk, mid) && Charged(mid, after)
    ensures Charged(bk, after) && Made(bk, after) == Made(bk, mid) + Made(mid, after)
  {
    MadeInTurn(bk, mid, after);
    forall b | b in bk.balances.Keys ensures BalanceGives(bk, after, b) {
      assert BalanceGives(bk, mid, b) && BalanceGives(mid, after, b);
      SumConcat(Made(bk, mid), Made(mid, after), OnBalance(b));
    }
    forall a | a in Made(bk, after) ensures !Drained(bk, a.balance) {
      if Drained(bk, a.balance) { StaysDrained(bk, mid, a.balance); }
    }
  }

  // ---------------------------------------------------------------- one line

  /** Every allocation is for the line, of some quantity, and from one of the candidates. */
  ghost predicate AllFor(made: seq<Allocation>, delivery: string, line: string, candidates: seq<string>) {
    forall a <- made :: a.delivery == delivery && a.line == line && !a.cancelled && a.quantity > 0.0 &&
        a.balance in candidates
  }

  lemma TakeCharges(bk: Book, delivery: string, line: string, b: string, taken: real)
    requires b in bk.balances && 0.0 < taken <= bk.balances[b].available
    ensures Charged(bk, Take(bk, delivery, line, b, taken))
    ensures Made(bk, Take(bk, delivery, line, b, taken)) == [Allocation(delivery, line, b, taken, false)]
  {
    var after, made := Take(bk, delivery, line, b, taken), [Allocation(delivery, line, b, taken, false)];
    assert Made(bk, after) == made && made[..0] == [];
    forall x | x in bk.balances.Keys ensures BalanceGives(bk, after, x) {
      assert Sum(made, OnBalance(x)) == OnBalance(x)(made[0]);
    }
  }

  /** A drained balance stays drained. */
  lemma StaysDrained(bk: Book, after: Book, b: string)
    requires Charged(bk, after) && Drained(bk, b)
    ensures Drained(after, b)
  {
    if b in bk.balances { assert BalanceGives(bk, after, b); }
  }

  /** The line draws this quantity from the candidates. */
  ghost predicate Draws(bk: Book, after: Book, delivery: string, line: string, candidates: seq<string>, taken: real) {
    && Charged(bk, after) && after.lines == bk.lines
    && AllFor(Made(bk, after), delivery, line, candidates)
    && Sum(Made(bk, after), OnLine(line)) == taken
  }

  lemma DrawsInTurn(bk: Book, mid: Book, after: Book, delivery: string, line: string, first: seq<string>,
        rest: seq<string>, candidates: seq<string>, taken: real, more: real)
    requires Draws(bk, mid, delivery, line, first, taken) && Draws(mid, after, delivery, line, rest, more)
    requires (forall b <- first :: b in candidates) && forall b <- rest :: b in candidates
    ensures Draws(bk, after, delivery, line, candidates, taken + more)
  {
    ChargedInTurn(bk, mid, after);
    SumConcat(Made(bk, mid), Made(mid, after), OnLine(line));
  }

  lemma TakeDraws(bk: Book, delivery: string, line: string, b: string, taken: real)
    requires b in bk.balances && 0.0 < taken <= bk.balances[b].available
    ensures Draws(bk, Take(bk, delivery, line, b, taken), delivery, line, [b], taken)
  {
    TakeCharges(bk, delivery, line, b, taken);
    var made := [Allocation(delivery, line, b, taken, false)];
    assert made[..0] == [] && Sum(made, OnLine(line)) == OnLine(line)(made[0]);
  }

  lemma DrawsNothing(bk: Book, delivery: string, line: string)
    ensures Draws(bk, bk, delivery, line, [], 0.0)
  {
    Uncharged(bk);
  }

  /** One turn of the draw-down. */
  lemma DrawDownTurn(bk: Book, delivery: string, line: string, candidates: seq<string>,
        needed: real) returns (next: Book, left: real)
    requires |candidates| > 0 && needed > 0.0
    ensures DrawDown(bk, delivery, line, candidates, needed) == DrawDown(next, delivery, line, candidates[1..], left)
    ensures Draws(bk, next, delivery, line, [candidates[0]], needed - left)
    ensures left >= 0.0 && (left > 0.0 ==> Drained(next, candidates[0]))
  {
    var b := candidates[0];
    next, left := bk, needed;
    if b in bk.balances && bk.balances[b].available > 0.0 {
      var taken := Min(needed, bk.balances[b].available);
      TakeDraws(bk, delivery, line, b, taken);
      next, left := Take(bk, delivery, line, b, taken), needed - taken;
    } else {
      DrawsNothing(bk, delivery, line);
    }
  }

  lemma {:induction false} DrawDownDraws(bk: Book, delivery: string, line: string, candidates: seq<string>,
        needed: real)
    ensures var (after, left) := DrawDown(bk, delivery, line, candidates, needed);
        Draws(bk, after, delivery, line, candidates, needed - left)
    decreases |candidates|
  {
    if |candidates| > 0 && needed > 0.0 {
      var next, more := DrawDownTurn(bk, delivery, line, candidates, needed);
      var (after, left) := DrawDown(next, delivery, line, candidates[1..], more);
      DrawDownDraws(next, delivery, line, candidates[1..], more);
      DrawsInTurn(bk, next, after, delivery, line, [candidates[0]], candidates[1..], candidates, needed - more,
          more - left);
    } else {
      DrawsNothing(bk, delivery, line);
    }
  }

  lemma DrainedFrom(bk: Book, candidates: seq<string>)
    requires |candidates| > 0 && Drained(bk, candidates[0]) && AllDrained(bk, candidates[1..])
    ensures AllDrained(bk, candidates)
  {
    forall b | b in candidates ensures Drained(bk, b) { if b != candidates[0] { assert b in candidates[1..]; } }
  }

  /** What is still needed afterwards is needed because every candidate is drained. */
  lemma {:induction false} DrawDownDrains(bk: Book, delivery: string, line: string, candidates: seq<string>,
        needed: real)
    ensures var (after, left) := DrawDown(bk, delivery, line, candidates, needed);
        (needed >= 0.0 ==> left >= 0.0) && (left > 0.0 ==> AllDrained(after, candidates))
    decreases |candidates|
  {
    if |candidates| > 0 && needed > 0.0 {
      var next, more := DrawDownTurn(bk, delivery, line, candidates, needed);
      var (after, left) := DrawDown(next, delivery, line, candidates[1..], more);
      DrawDownDrains(next, delivery, line, candidates[1..], more);
      if left > 0.0 {
        DrawDownDraws(next, delivery, line, candidates[1..], more);
        StaysDrained(next, after, candidates[0]);
        DrainedFrom(after, candidates);
      }
    }
  }

  /** A candidate is drawn on only when all before it are drained. */
  ghost predicate InOrder(after: Book, made: seq<Allocation>, line: string, candidates: seq<string>) {
    forall a, p, q :: a in made && a.line == line && 0 <= p < q < |candidates| && a.balance == candidates[q] ==>
        Drained(after, candidates[p])
  }

  lemma {:induction false} DrawDownInOrder(bk: Book, delivery: string, line: string, candidates: seq<string>,
        needed: real)
    requires NoDuplicates(candidates)
    ensures var after := DrawDown(bk, delivery, line, candidates, needed).0;
        bk.allocations <= after.allocations && InOrder(after, Made(bk, after), line, candidates)
    decreases |candidates|
  {
    if |candidates| > 0 && needed > 0.0 {
      assert NoDuplicates(candidates[1..]);
      var next, more := DrawDownTurn(bk, delivery, line, candidates, needed);
      var (after, left) := DrawDown(next, delivery, line, candidates[1..], more);
      DrawDownInOrder(next, delivery, line, candidates[1..], more);
      DrawDownDraws(next, delivery, line, candidates[1..], more);
      if more > 0.0 { StaysDrained(next, after, candidates[0]); }
      MadeInTurn(bk, next, after);
      OrderFromRest(after, Made(next, after), line, candidates);
      OrderAfterFirst(after, Made(next, after), Made(bk, next), line, candidates);
    }
  }

  lemma OrderFromRest(after: Book, made: seq<Allocation>, line: string, candidates: seq<string>)
    requires |candidates| > 0 && InOrder(after, made, line, candidates[1..])
    requires made == [] || Drained(after, candidates[0])
    ensures InOrder(after, made, line, candidates)
  {
    forall a, p, q | a in made && a.line == line && 0 <= p < q < |candidates| && a.balance == candidates[q]
      ensures Drained(after, candidates[p])
    {
      assert a.balance == candidates[1..][q - 1];
      if p > 0 { assert candidates[1..][p - 1] == candidates[p]; }
    }
  }

  lemma OrderAfterFirst(after: Book, made: seq<Allocation>, first: seq<Allocation>, line: string,
        candidates: seq<string>)
    requires NoDuplicates(candidates) && |candidates| > 0 && InOrder(after, made, line, candidates)
    requires forall a <- first :: a.balance in [candidates[0]]
    ensures InOrder(after, first + made, line, candidates)
  {
  }

  // ---------------------------------------------------------------- all lines of a delivery

  ghost predicate LineGains(bk: Book, after: Book, l: string) {
    && l in bk.lines && l in after.lines
    && var gained := Sum(Made(bk, after), OnLine(l));
      after.lines[l] == bk.lines[l].(allocatedQuantity := bk.lines[l].allocatedQuantity + gained) && gained >= 0.0
  }

  /** Every line shows what is allocated to it, and nothing else of a line has changed. */
  ghost predicate Credited(bk: Book, after: Book) {
    after.lines.Keys == bk.lines.Keys && forall l <- bk.lines.Keys :: LineGains(bk, after, l)
  }

  lemma CreditedInTurn(bk: Book, mid: Book, after: Book)
    requires bk.allocations <= mid.allocations <= after.allocations && Credited(bk, mid) && Credited(mid, after)
    ensures Credited(bk, after)
  {
    MadeInTurn(bk, mid, after);
    forall l | l in bk.lines.Keys ensures LineGains(bk, after, l) {
      assert LineGains(bk, mid, l) && LineGains(mid, after, l);
      SumConcat(Made(bk, mid), Made(mid, after), OnLine(l));
    }
  }

  predicate IsOf(bk: Book, delivery: string, line: string) { line in bk.lines && bk.lines[line].delivery == delivery }

  predicate Full(bk: Book, line: string) {
    line in bk.lines && bk.lines[line].allocatedQuantity >= bk.lines[line].requested
  }

  /** The line has all it asks for, or none of its candidates has anything left. */
  ghost predicate Settled(bk: Book, line: string, candidates: seq<string>) {
    Full(bk, line) || AllDrained(bk, candidates)
  }

  lemma StaysSettled(bk: Book, after: Book, line: string, candidates: seq<string>)
    requires Charged(bk, after) && Credited(bk, after) && Settled(bk, line, candidates)
    ensures Settled(after, line, candidates) && (Full(bk, line) ==> Full(after, line))
  {
    if Full(bk, line) {
      assert LineGains(bk, after, line);
    } else {
      forall b | b in candidates ensures Drained(after, b) { StaysDrained(bk, after, b); }
    }
  }

  lemma OthersGainNothing(made: seq<Allocation>, delivery: string, line: string, candidates: seq<string>, l: string)
    requires AllFor(made, delivery, line, candidates) && l != line
    ensures Sum(made, OnLine(l)) == 0.0
  {
    forall i | 0 <= i < |made| ensures OnLine(l)(made[i]) == 0.0 { assert made[i] in made; }
    SumZero(made, OnLine(l));
  }

  lemma GainsAreNotNegative(made: seq<Allocation>, delivery: string, line: string, candidates: seq<string>)
    requires AllFor(made, delivery, line, candidates)
    ensures Sum(made, OnLine(line)) >= 0.0
  {
    forall i | 0 <= i < |made| ensures OnLine(line)(made[i]) >= 0.0 { assert made[i] in made; }
    SumNonNegative(made, OnLine(line));
  }

  lemma LineIsAllocated(bk: Book, delivery: string, line: string, candidates: seq<string>)
    ensures var after := AllocateLine(bk, delivery, line, candidates);
      && Charged(bk, after) && Credited(bk, after) && AllFor(Made(bk, after), delivery, line, candidates)
      && (!IsOf(bk, delivery, line) ==> after == bk)
      && (IsOf(bk, delivery, line) ==> Settled(after, line, candidates))
  {
    Uncharged(bk);
    if IsOf(bk, delivery, line) {
      var l := bk.lines[line];
      var needed := l.requested - l.allocatedQuantity;
      var (drawn, left) := DrawDown(bk, delivery, line, candidates, needed);
      var after := AllocateLine(bk, delivery, line, candidates);
      DrawDownDraws(bk, delivery, line, candidates, needed);
      DrawDownDrains(bk, delivery, line, candidates, needed);
      SameCharges(bk, drawn, after);
      GainsAreNotNegative(Made(bk, after), delivery, line, candidates);
      forall x | x in bk.lines.Keys ensures LineGains(bk, after, x) {
        if x != line { OthersGainNothing(Made(bk, after), delivery, line, candidates, x); }
      }
      if left > 0.0 {
        forall b | b in candidates ensures Drained(after, b) { assert Drained(drawn, b); }
      }
    }
  }

  lemma SameCharges(bk: Book, drawn: Book, after: Book)
    requires Charged(bk, drawn) && after == drawn.(lines := after.lines)
    ensures Charged(bk, after) && Made(bk, after) == Made(bk, drawn)
  {
    forall b | b in bk.balances.Keys ensures BalanceGives(bk, after, b) { assert BalanceGives(bk, drawn, b); }
  }

  /** The candidates given for a line. */
  function Offered(candidates: map<string, seq<string>>, line: string): seq<string> {
    if line in candidates then candidates[line] else []
  }

  /** Each allocation is for a line of the delivery, from one of that line's candidates. */
  ghost predicate AllForItems(bk: Book, made: seq<Allocation>, delivery: string, items: seq<string>,
        candidates: map<string, seq<string>>)
  {
    forall a <- made :: a.delivery == delivery && !a.cancelled && a.quantity > 0.0 && a.line in items &&
        IsOf(bk, delivery, a.line) && a.balance in Offered(candidates, a.line)
  }

  ghost predicate AllSettled(bk: Book, delivery: string, items: seq<string>, candidates: map<string, seq<string>>) {
    forall l <- items :: IsOf(bk, delivery, l) ==> Settled(bk, l, Offered(candidates, l))
  }

  /** A later line gets something from a balance only when the earlier lines that could have had it are full. */
  ghost predicate FirstComeFirstServed(after: Book, made: seq<Allocation>, delivery: string, items: seq<string>,
        candidates: map<string, seq<string>>)
  {
    forall a, i, j :: a in made && 0 <= i < j < |items| && a.line == items[j] && IsOf(after, delivery, items[i]) &&
        a.balance in Offered(candidates, items[i])
      ==> Full(after, items[i])
  }

  ghost predicate AllInOrder(after: Book, made: seq<Allocation>, items: seq<string>,
        candidates: map<string, seq<string>>)
  {
    forall l <- items :: NoDuplicates(Offered(candidates, l)) ==>
        InOrder(after, made, l, Offered(candidates, l))
  }

  lemma SameLines(bk: Book, after: Book, delivery: string, line: string)
    requires Credited(bk, after)
    ensures IsOf(after, delivery, line) == IsOf(bk, delivery, line)
  {
    if line in bk.lines { assert LineGains(bk, after, line); }
  }

  lemma {:induction false} LinesAreCharged(bk: Book, delivery: string, items: seq<string>,
        candidates: map<string, seq<string>>)
    ensures var after := AllocateLines(bk, delivery, items, candidates);
      && Charged(bk, after) && Credited(bk, after)
      && AllForItems(bk, Made(bk, after), delivery, items, candidates)
    decreases |items|
  {
    if |items| == 0 {
      Uncharged(bk);
    } else {
      var mine := Offered(candidates, items[0]);
      var next := AllocateLine(bk, delivery, items[0], mine);
      var after := AllocateLines(bk, delivery, items, candidates);
      LineIsAllocated(bk, delivery, items[0], mine);
      LinesAreCharged(next, delivery, items[1..], candidates);
      ChargedInTurn(bk, next, after);
      CreditedInTurn(bk, next, after);
      forall a | a in Made(next, after) ensures IsOf(bk, delivery, a.line) { SameLines(bk, next, delivery, a.line); }
    }
  }

  lemma {:induction false} LinesAreSettled(bk: Book, delivery: string, items: seq<string>,
        candidates: map<string, seq<string>>)
    ensures AllSettled(AllocateLines(bk, delivery, items, candidates), delivery, items, candidates)
    decreases |items|
  {
    if |items| > 0 {
      var mine := Offered(candidates, items[0]);
      var next := AllocateLine(bk, delivery, items[0], mine);
      var after := AllocateLines(bk, delivery, items, candidates);
      LineIsAllocated(bk, delivery, items[0], mine);
      LinesAreCharged(next, delivery, items[1..], candidates);
      LinesAreSettled(next, delivery, items[1..], candidates);
      SameLines(bk, next, delivery, items[0]);
      SameLines(next, after, delivery, items[0]);
      if IsOf(bk, delivery, items[0]) { StaysSettled(next, after, items[0], mine); }
    }
  }

  lemma {:induction false} LinesAreServedInTurn(bk: Book, delivery: string, items: seq<string>,
        candidates: map<string, seq<string>>)
    requires NoDuplicates(items)
    ensures var after := AllocateLines(bk, delivery, items, candidates);
        FirstComeFirstServed(after, Made(bk, after), delivery, items, candidates)
    decreases |items|
  {
    if |items| > 0 {
      var mine, rest := Offered(candidates, items[0]), items[1..];
      var next := AllocateLine(bk, delivery, items[0], mine);
      var after := AllocateLines(bk, delivery, items, candidates);
      LineIsAllocated(bk, delivery, items[0], mine);
      LinesAreCharged(next, delivery, rest, candidates);
      LinesAreServedInTurn(next, delivery, rest, candidates);
      MadeInTurn(bk, next, after);
      SameLines(bk, next, delivery, items[0]);
      SameLines(next, after, delivery, items[0]);
      forall a, i, j | a in Made(bk, after) && 0 <= i < j < |items| && a.line == items[j] &&
          IsOf(after, delivery, items[i]) && a.balance in Offered(candidates, items[i])
        ensures Full(after, items[i])
      {
        assert a !in Made(bk, next);
        if i > 0 {
          assert items[i] == rest[i - 1] && items[j] == rest[j - 1];
        } else {
          assert !Drained(next, a.balance);
          StaysSettled(next, after, items[0], mine);
        }
      }
    }
  }

  lemma {:induction false} LinesAreServedInOrder(bk: Book, delivery: string, items: seq<string>,
        candidates: map<string, seq<string>>)
    requires NoDuplicates(items)
    ensures var after := AllocateLines(bk, delivery, items, candidates);
        AllInOrder(after, Made(bk, after), items, candidates)
    decreases |items|
  {
    if |items| > 0 {
      var mine, rest := Offered(candidates, items[0]), items[1..];
      var next := AllocateLine(bk, delivery, items[0], mine);
      var after := AllocateLines(bk, delivery, items, candidates);
      LineIsAllocated(bk, delivery, items[0], mine);
      LinesAreCharged(next, delivery, rest, candidates);
      LinesAreServedInOrder(next, delivery, rest, candidates);
      MadeInTurn(bk, next, after);
      forall l | l in items && NoDuplicates(Offered(candidates, l))
        ensures InOrder(after, Made(bk, after), l, Offered(candidates, l))
      {
        if l == items[0] {
          LineIsServedInOrder(bk, delivery, l, mine);
          OrderStays(next, after, Made(bk, next), l, mine);
          assert l !in rest;
        } else {
          assert l in rest;
        }
      }
    }
  }

  lemma LineIsServedInOrder(bk: Book, delivery: string, line: string, candidates: seq<string>)
    requires NoDuplicates(candidates)
    ensures var after := AllocateLine(bk, delivery, line, candidates);
        InOrder(after, Made(bk, after), line, candidates)
  {
    if IsOf(bk, delivery, line) {
      var l := bk.lines[line];
      var drawn := DrawDown(bk, delivery, line, candidates, l.requested - l.allocatedQuantity).0;
      var after := AllocateLine(bk, delivery, line, candidates);
      DrawDownInOrder(bk, delivery, line, candidates, l.requested - l.allocatedQuantity);
      assert Made(bk, after) == Made(bk, drawn);
      assert forall b :: Drained(drawn, b) ==> Drained(after, b);
    }
  }

  lemma OrderStays(bk: Book, after: Book, made: seq<Allocation>, line: string, candidates: seq<string>)
    requires Charged(bk, after) && InOrder(bk, made, line, candidates)
    ensures InOrder(after, made, line, candidates)
  {
    forall b | Drained(bk, b) ensures Drained(after, b) { StaysDrained(bk, after, b); }
  }

  /** An allocation makes allocations for the delivery's own lines from their candidates only, charges every balance
      and credits every line with exactly those, and changes nothing else. Each line ends with all it asks for or with
      its candidates drained, earlier lines and earlier candidates first. */
  lemma AllocationServes(bk: Book, delivery: string, candidates: map<string, seq<string>>)
    requires IsOpen(bk, delivery) && NoDuplicates(bk.deliveries[delivery].items)
    ensures var after := Allocate(bk, delivery, candidates); var items := bk.deliveries[delivery].items;
      && Charged(bk, after) && Credited(bk, after)
      && AllForItems(bk, Made(bk, after), delivery, items, candidates)
      && AllSettled(after, delivery, items, candidates)
      && FirstComeFirstServed(after, Made(bk, after), delivery, items, candidates)
      && AllInOrder(after, Made(bk, after), items, candidates)
  {
    var items := bk.deliveries[delivery].items;
    LinesAreCharged(bk, delivery, items, candidates);
    LinesAreSettled(bk, delivery, items, candidates);
    LinesAreServedInTurn(bk, delivery, items, candidates);
    LinesAreServedInOrder(bk, delivery, items, candidates);
  }

  /** In particular no other delivery's line moves. */
  lemma OtherLinesStay(bk: Book, delivery: string, candidates: map<string, seq<string>>, l: string)
    requires l in bk.lines && bk.lines[l].delivery != delivery
    ensures var after := Allocate(bk, delivery, candidates); l in after.lines && after.lines[l] == bk.lines[l]
  {
    if IsOpen(bk, delivery) {
      var items := bk.deliveries[delivery].items;
      var after := Allocate(bk, delivery, candidates);
      LinesAreCharged(bk, delivery, items, candidates);
      assert LineGains(bk, after, l);
      forall i | 0 <= i < |Made(bk, after)| ensures OnLine(l)(Made(bk, after)[i]) == 0.0 {
        assert Made(bk, after)[i] in Made(bk, after);
      }
      SumZero(Made(bk, after), OnLine(l));
    }
  }
}
