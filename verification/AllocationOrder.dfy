/** The removal rules and the draw-down together: which balances an allocation leaves untouched. */
module AllocationOrder {
  import opened Basics
  import opened Sorting
  import opened RemovalRules
  import Reservations
  import ReservationProofs

  function Names(cs: seq<Candidate>): (names: seq<string>)
    ensures |names| == |cs|
  {
    seq(|cs|, i requires 0 <= i < |cs| => cs[i].name)
  }

  /** Balances are reserved in the order of the removal rule: as long as an eligible balance has anything available,
      nothing that comes after it in that order is touched. */
  lemma AllocationFollowsOrder(bk: Reservations.Book, delivery: string, line: string, setup: Setup, cs: seq<Candidate>,
        a: Candidate, b: Candidate)
    requires !Mixed(cs) && DistinctNames(cs) && a in cs && b in cs && a != b && Eligible(setup, cs, a)
    requires Eligible(setup, cs, b)
    requires FullOrder(setup, BinsMatter(setup, cs))(a, b)
    ensures var after := Reservations.AllocateLine(bk, delivery, line, Names(DrawOrder(setup, Fefo, cs).value));
      ReservationProofs.Touched(bk, after, b.name) ==> ReservationProofs.AvailableIn(after)(a.name) == 0.0
  {
    var list := DrawOrder(setup, Fefo, cs).value;
    var names := Names(list);
    DrawOrderIsLexicographic(setup, cs);
    DrawOrderIsWithin(setup, cs);
    WithinKeepsNames(list, cs);
    var i :| 0 <= i < |list| && list[i] == a;
    var j :| 0 <= j < |list| && list[j] == b;
    if j < i {
      FullOrderDecides(setup, BinsMatter(setup, cs), a, b);
      assert false;
    }
    assert names[i] == a.name && names[j] == b.name;
    AllocationIsGreedy(bk, delivery, line, names, i, j);
  }

  lemma AllocationIsGreedy(bk: Reservations.Book, delivery: string, line: string, names: seq<string>, i: nat, j: nat)
    requires ReservationProofs.NoDuplicates(names) && i < j < |names|
    ensures var after := Reservations.AllocateLine(bk, delivery, line, names);
      ReservationProofs.Touched(bk, after, names[j]) ==> ReservationProofs.AvailableIn(after)(names[i]) == 0.0
  {
    if line in bk.lines && bk.lines[line].delivery == delivery {
      var l := bk.lines[line];
      ReservationProofs.DrawDownIsGreedy(bk, delivery, line, names, l.requested - l.allocatedQuantity);
      var drawn := Reservations.DrawDown(bk, delivery, line, names, l.requested - l.allocatedQuantity).0;
      var after := Reservations.AllocateLine(bk, delivery, line, names);
      assert after.balances == drawn.balances;
      if ReservationProofs.Touched(bk, after, names[j]) { assert ReservationProofs.Touched(bk, drawn, names[j]); }
    }
  }
}
