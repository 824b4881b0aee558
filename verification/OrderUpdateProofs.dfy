/** After a successful order change the warehouse carries exactly what the order still wants. */
module OrderUpdateProofs {
  import opened Basics
  import opened Sums
  import opened Sorting
  import opened OrderUpdate
  import opened OrderTotals
  import opened OrderRows
  import opened OrderRuns

  // ---------------------------------------------------------------- removed lines

  /** Removing lines that have gone only lowers the weight, or (`exactly`) does not move it. */
  ghost predicate LightWhenGone(w: Weight, order: Order, exactly: bool) {
    forall l: Line {:trigger w(false, l)} :: Gone(order, l) ==> w(false, l) >= 0.0 && (exactly ==> w(false, l) == 0.0)
  }

  lemma {:induction false} StayingTotal(lines: seq<Line>, order: Order, w: Weight, exactly: bool)
    requires LightWhenGone(w, order, exactly)
    ensures NoMore(Sum(lines, LineWorth(w, false)), Sum(Filter(lines, Stays(order)), LineWorth(w, false)), exactly)
    decreases |lines|
  {
    if |lines| != 0 {
      var f, rest := LineWorth(w, false), lines[1..];
      StayingTotal(rest, order, w, exactly);
      assert lines == [lines[0]] + rest;
      SumConcat([lines[0]], rest, f);
      SumConcat(if Stays(order)(lines[0]) then [lines[0]] else [], Filter(rest, Stays(order)), f);
      assert w(false, lines[0]) == f(lines[0]);
    }
  }

  lemma {:induction false} StayingAreThere(lines: seq<Line>, order: Order)
    ensures forall l <- Filter(lines, Stays(order)) :: l in lines && !Gone(order, l)
    decreases |lines|
  {
    if |lines| != 0 { StayingAreThere(lines[1..], order); }
  }

  lemma ProperTail(lines: seq<Line>)
    requires ProperLines(lines) && |lines| > 0
    ensures ProperLines(lines[1..])
    ensures forall l <- lines[1..] :: l.orderLine == lines[0].orderLine ==> l.orderLine == ""
  {
    assert forall p :: 0 <= p < |lines[1..]| ==> lines[1..][p] == lines[p + 1];
  }

  lemma {:induction false} StayingLinesAreProper(lines: seq<Line>, order: Order)
    requires ProperLines(lines)
    ensures ProperLines(Filter(lines, Stays(order)))
    decreases |lines|
  {
    if |lines| != 0 {
      ProperTail(lines);
      StayingLinesAreProper(lines[1..], order);
      StayingAreThere(lines[1..], order);
      var kept := Filter(lines[1..], Stays(order));
      forall p | 0 <= p < |kept| ensures kept[p].orderLine == lines[0].orderLine ==> lines[0].orderLine == "" {
        assert kept[p] in kept;
      }
    }
  }

  lemma StayingIsProper(lines: seq<Line>, order: Order)
    requires ProperLines(lines)
    ensures ProperLines(Filter(lines, Stays(order)))
    ensures !AnyStarted(lines) ==> !AnyStarted(Filter(lines, Stays(order)))
    ensures forall l <- Filter(lines, Stays(order)) :: !Gone(order, l)
  {
    StayingLinesAreProper(lines, order);
    StayingAreThere(lines, order);
    var kept := Filter(lines, Stays(order));
    if p :| 0 <= p < |kept| && LineStarted(kept[p]) {
      assert kept[p] in kept && kept[p] in lines;
    }
  }

  /** A started delivery still carries a line that the order no longer has. */
  ghost predicate IsStuck(order: Order, d: Delivery) { IsOpen(d) && Started(d) && HasGone(order, d) }

  lemma {:induction false} DropSucceeds(ds: seq<Delivery>, found: FollowUp, order: Order, i: nat, n: nat)
    requires i <= n <= |ds|
    ensures DropRemoved(ds, found, order, i, n).Some? <==> forall k :: i <= k < n ==> !IsStuck(order, ds[k])
    decreases n - i
  {
    if i < n {
      if IsOpen(ds[i]) && HasGone(order, ds[i]) {
        if !Started(ds[i]) {
          var next := Rebuild(ds, i, Filter(ds[i].lines, Stays(order)), found);
          DropSucceeds(next, found, order, i + 1, n);
          assert forall k :: i < k < n ==> next[k] == ds[k];
        }
      } else {
        DropSucceeds(ds, found, order, i + 1, n);
      }
    }
  }

  ghost predicate Clean(order: Order, d: Delivery) { IsOpen(d) ==> forall l <- d.lines :: !Gone(order, l) }

  lemma RenewedIsClean(kept: seq<Line>, mode: Mode, i: nat, found: FollowUp, order: Order)
    requires forall l <- kept :: !Gone(order, l)
    ensures Clean(order, NewDelivery(kept, mode, i, found))
  {
    var d := NewDelivery(kept, mode, i, found);
    forall l | l in d.lines ensures !Gone(order, l) {
      assert |d.lines| == |kept|;
      var p :| 0 <= p < |d.lines| && d.lines[p] == l;
      var t := RenewedAt(kept, mode, i, found, p);
      assert kept[p] in kept;
    }
  }

  /** All but the deliveries from `i` up to `n` are clean. */
  ghost predicate CleanBut(ds: seq<Delivery>, order: Order, i: nat, n: nat) {
    forall k :: 0 <= k < |ds| && (k < i || n <= k) ==> Clean(order, ds[k])
  }

  lemma RebuiltIsProper(ds: seq<Delivery>, found: FollowUp, order: Order, i: nat)
    requires Proper(ds) && i < |ds| && IsOpen(ds[i])
    ensures Proper(Rebuild(ds, i, Filter(ds[i].lines, Stays(order)), found))
  {
    StayingLinesAreProper(ds[i].lines, order);
    RebuildIsProper(ds, i, Filter(ds[i].lines, Stays(order)), found);
  }

  lemma RebuiltIsClean(ds: seq<Delivery>, found: FollowUp, order: Order, i: nat, n: nat)
    requires i < n <= |ds| && IsOpen(ds[i]) && CleanBut(ds, order, i, n)
    ensures CleanBut(Rebuild(ds, i, Filter(ds[i].lines, Stays(order)), found), order, i + 1, n)
  {
    var kept := Filter(ds[i].lines, Stays(order));
    StayingAreThere(ds[i].lines, order);
    RenewedIsClean(kept, ds[i].mode, |ds|, found, order);
  }

  lemma {:induction false} DropCleans(ds: seq<Delivery>, found: FollowUp, order: Order, i: nat, n: nat)
    requires Proper(ds) && i <= n <= |ds| && DropRemoved(ds, found, order, i, n).Some? && CleanBut(ds, order, i, n)
    ensures Proper(DropRemoved(ds, found, order, i, n).value)
    ensures forall d <- DropRemoved(ds, found, order, i, n).value :: Clean(order, d)
    decreases n - i
  {
    if i < n {
      if IsOpen(ds[i]) && HasGone(order, ds[i]) {
        RebuiltIsProper(ds, found, order, i);
        RebuiltIsClean(ds, found, order, i, n);
        DropCleans(Rebuild(ds, i, Filter(ds[i].lines, Stays(order)), found), found, order, i + 1, n);
      } else {
        DropCleans(ds, found, order, i + 1, n);
      }
    }
  }

  lemma DropTotal(ds: seq<Delivery>, found: FollowUp, order: Order, i: nat, w: Weight, exactly: bool)
    requires Proper(ds) && i < |ds| && IsOpen(ds[i]) && !Started(ds[i]) && LightWhenGone(w, order, exactly)
    requires (Steady(w, exactly) || FindsNothing(found))
    ensures NoMore(Total(ds, w), Total(Rebuild(ds, i, Filter(ds[i].lines, Stays(order)), found), w), exactly)
  {
    var kept := Filter(ds[i].lines, Stays(order));
    StayingIsProper(ds[i].lines, order);
    if Steady(w, exactly) {
      SteadyIsNoHeavier(kept, ds[i].mode, |ds|, found, w, exactly);
    } else {
      SameIsNoHeavier(kept, ds[i].mode, |ds|, found, w, exactly);
    }
    RebuildTotal(ds, i, kept, found, w, exactly);
    StayingTotal(ds[i].lines, order, w, exactly);
  }

  lemma DropStep(ds: seq<Delivery>, found: FollowUp, order: Order, i: nat, n: nat, w: Weight,
        exactly: bool) returns (next: seq<Delivery>)
    requires Proper(ds) && i < n <= |ds| && DropRemoved(ds, found, order, i, n).Some?
    requires LightWhenGone(w, order, exactly) && (Steady(w, exactly) || FindsNothing(found))
    ensures Proper(next) && n <= |next|
    ensures DropRemoved(next, found, order, i + 1, n) == DropRemoved(ds, found, order, i, n)
    ensures NoMore(Total(ds, w), Total(next, w), exactly)
  {
    next := ds;
    if IsOpen(ds[i]) && HasGone(order, ds[i]) {
      RebuiltIsProper(ds, found, order, i);
      DropTotal(ds, found, order, i, w, exactly);
      next := Rebuild(ds, i, Filter(ds[i].lines, Stays(order)), found);
    }
  }

  lemma {:induction false} DropIsLight(ds: seq<Delivery>, found: FollowUp, order: Order, i: nat, n: nat, w: Weight,
        exactly: bool)
    requires Proper(ds) && i <= n <= |ds| && DropRemoved(ds, found, order, i, n).Some?
    requires LightWhenGone(w, order, exactly) && (Steady(w, exactly) || FindsNothing(found))
    ensures NoMore(Total(ds, w), Total(DropRemoved(ds, found, order, i, n).value, w), exactly)
    decreases n - i
  {
    if i < n {
      var next := DropStep(ds, found, order, i, n, w, exactly);
      DropIsLight(next, found, order, i + 1, n, w, exactly);
    }
  }

  // ---------------------------------------------------------------- the whole update

  /** Counts removed lines under execution, downwards. */
  function Stuck(order: Order): Weight { (started: bool, l: Line) => if started && Gone(order, l) then -1.0 else 0.0 }

  lemma {:induction false} SomeLineWeighs(lines: seq<Line>, order: Order, started: bool)
    ensures Sum(lines, LineWorth(Stuck(order), started)) <= 0.0
    ensures Sum(lines, LineWorth(Stuck(order), started)) < 0.0 <==>
        started && exists p :: 0 <= p < |lines| && Gone(order, lines[p])
  {
    if |lines| != 0 {
      var n := |lines| - 1;
      SomeLineWeighs(lines[..n], order, started);
      if p :| 0 <= p < |lines| && Gone(order, lines[p]) {
        assert p < n ==> lines[..n][p] == lines[p];
      }
    }
  }

  lemma {:induction false} StuckTotal(ds: seq<Delivery>, order: Order)
    ensures Total(ds, Stuck(order)) <= 0.0
    ensures Total(ds, Stuck(order)) < 0.0 <==> exists k :: 0 <= k < |ds| && IsStuck(order, ds[k])
  {
    if |ds| != 0 {
      var n := |ds| - 1;
      StuckTotal(ds[..n], order);
      SomeLineWeighs(ds[n].lines, order, Started(ds[n]));
      assert Worth(ds[n], Stuck(order)) < 0.0 <==> IsStuck(order, ds[n]);
      if k :| 0 <= k < |ds| && IsStuck(order, ds[k]) {
        assert k < n ==> ds[..n][k] == ds[k];
      }
      if k :| 0 <= k < n && IsStuck(order, ds[..n][k]) {
        assert ds[k] == ds[..n][k];
      }
    }
  }

  ghost predicate Listed(order: Order, id: string) { ListedIn(order.groups, id) }

  lemma StuckIsIgnored(order: Order, id: string)
    requires InOrder(order, id)
    ensures Harmless(Stuck(order), id, true) && Harmless(Stuck(order), id, false)
  {
  }

  lemma StuckIsSteady(order: Order)
    ensures Steady(Stuck(order), false)
  {
  }

  lemma ListedAreInOrder(order: Order, id: string)
    requires Listed(order, id)
    ensures InOrder(order, id)
  {
    var g :| 0 <= g < |order.groups| && Among(order.groups[g].rows, id);
    var k :| 0 <= k < |order.groups[g].rows| && order.groups[g].rows[k].id == id;
  }

  lemma ShortfallIsHarmless(id: string)
    ensures Harmless(Shortfall(), id, false)
  {
  }

  lemma ShortfallIsSteady()
    ensures Steady(Shortfall(), false)
  {
  }

  /** Some row asks for more than the warehouse handles of it. */
  ghost predicate Raised(ds: seq<Delivery>, order: Order, id: string) {
    exists g, k :: 0 <= g < |order.groups| && 0 <= k < |order.groups[g].rows| && order.groups[g].rows[k].id == id &&
        Wanted(order.groups[g].rows[k]) > OnWms(ds, id)
  }

  /** All order lines are still to come; a removed line must not come under execution. */
  ghost function ScopeOf(ds: seq<Delivery>, order: Order): Scope {
    Scope(iset id: string | Listed(order, id), iset id: string | Listed(order, id),
        iset id: string | Raised(ds, order, id),
      (o: string, id: string) => id != "" && o == order.name && !InOrder(order, id))
  }

  lemma ScopeFits(ds: seq<Delivery>, order: Order)
    requires DistinctGroups(order.groups)
    ensures GroupsFit(ds, order.groups, ScopeOf(ds, order))
  {
    var S := ScopeOf(ds, order);
    forall g, k | 0 <= g < |order.groups| && 0 <= k < |order.groups[g].rows|
      ensures FitsRow(ds, order.groups[g].rows[k], S)
    {
      var row := order.groups[g].rows[k];
      assert Distinct(order.groups[g].rows) && Among(order.groups[g].rows, row.id) && Listed(order, row.id);
      ListedAreInOrder(order, row.id);
      assert Wanted(row) > OnWms(ds, row.id) ==> Raised(ds, order, row.id);
      forall l: Line ensures NotKept(S, row.id, l) {}
    }
  }

  lemma StuckNeverLess(ds: seq<Delivery>, names: Naming, found: FollowUp, order: Order)
    requires Proper(ds) && DistinctGroups(order.groups)
    requires UpdateGroups(ds, names, found, order.name, order.groups).Some?
    ensures var next := UpdateGroups(ds, names, found, order.name, order.groups).value;
      NoMore(Total(ds, Stuck(order)), Total(next, Stuck(order)), Calm(ds, found, ScopeOf(ds, order)))
  {
    var S := ScopeOf(ds, order);
    forall id: string | ListedIn(order.groups, id)
      ensures Harmless(Stuck(order), id, true) && Harmless(Stuck(order), id, false)
    {
      ListedAreInOrder(order, id);
      StuckIsIgnored(order, id);
    }
    StuckIsSteady(order);
    GroupsAreHarmless(ds, names, found, order.name, order.groups, Stuck(order), false, S);
    if Calm(ds, found, S) {
      ScopeFits(ds, order);
      assert Guarded(Stuck(order), S, iset{}) by { assert forall l: Line :: IsKept(S, l) == Gone(order, l); }
      GroupsAreHarmless(ds, names, found, order.name, order.groups, Stuck(order), true, S);
    }
  }

  /** What refuses a change, told from the state before it: a line that cannot shrink that far, or a removed line under
      execution. */
  ghost predicate Acceptable(ds: seq<Delivery>, order: Order) {
    GroupsAccepted(ds, order.groups) && forall d <- ds :: !IsStuck(order, d)
  }

  lemma NoneStuck(ds: seq<Delivery>, order: Order)
    ensures (forall d <- ds :: !IsStuck(order, d)) <==> Total(ds, Stuck(order)) == 0.0
    ensures (forall d <- ds :: !IsStuck(order, d)) <==> forall k :: 0 <= k < |ds| ==> !IsStuck(order, ds[k])
  {
    StuckTotal(ds, order);
  }

  /** Whatever the releases allocate, a change that could not be followed in the state before it is refused. */
  lemma FollowedIsAcceptable(ds: seq<Delivery>, names: Naming, found: FollowUp, order: Order)
    requires Proper(ds) && DistinctGroups(order.groups) && Update(ds, names, found, order).Some?
    ensures Acceptable(ds, order)
  {
    var next := UpdateGroups(ds, names, found, order.name, order.groups).value;
    GroupsNeedAcceptance(ds, names, found, order);
    StuckNeverLess(ds, names, found, order);
    DropSucceeds(next, found, order, 0, |next|);
    NoneStuck(next, order);
    NoneStuck(ds, order);
    StuckTotal(ds, order);
  }

  lemma CalmIsFollowed(ds: seq<Delivery>, names: Naming, found: FollowUp, order: Order)
    requires Proper(ds) && DistinctGroups(order.groups) && Calm(ds, found, ScopeOf(ds, order)) && Acceptable(ds, order)
    ensures Update(ds, names, found, order).Some?
  {
    ScopeFits(ds, order);
    GroupsSucceed(ds, names, found, order, ScopeOf(ds, order));
    var next := UpdateGroups(ds, names, found, order.name, order.groups).value;
    StuckNeverLess(ds, names, found, order);
    NoneStuck(ds, order);
    NoneStuck(next, order);
    DropSucceeds(next, found, order, 0, |next|);
  }

  /** The refusal is told from the state before, when no replaced delivery's allocation can get in the way. */
  lemma UpdateIsRefusedExactly(ds: seq<Delivery>, names: Naming, found: FollowUp, order: Order)
    requires Proper(ds) && DistinctGroups(order.groups) && Calm(ds, found, ScopeOf(ds, order))
    ensures Update(ds, names, found, order).None? <==> !Acceptable(ds, order)
  {
    if Acceptable(ds, order) { CalmIsFollowed(ds, names, found, order); }
    if Update(ds, names, found, order).Some? { FollowedIsAcceptable(ds, names, found, order); }
  }

  /** Every row ends where its own turn takes it, and no open delivery keeps a removed line. */
  lemma UpdateSettles(ds: seq<Delivery>, names: Naming, found: FollowUp, order: Order, g: nat, k: nat)
    requires Proper(ds) && DistinctGroups(order.groups) && Update(ds, names, found, order).Some?
    requires g < |order.groups| && k < |order.groups[g].rows|
    ensures Turn(ds, names, found, order, g, k).Some?
    ensures var row := order.groups[g].rows[k]; var v := ViewOf(Turn(ds, names, found, order, g, k).value, row.id);
      OnlyLess(ViewOf(ds, row.id), v) && Accepts(v, order.groups[g].blocks, row)
      && OnWms(Update(ds, names, found, order).value, row.id) == Settled(v, order.groups[g], row)
  {
    var next := UpdateGroups(ds, names, found, order.name, order.groups).value;
    var id := order.groups[g].rows[k].id;
    GroupsSettle(ds, names, found, order, g, k);
    GroupsAreProper(ds, names, found, order.name, order.groups);
    assert InOrder(order, id);
    OpenIsSteady(id);
    DropIsLight(next, found, order, 0, |next|, OnLine(id, OpenPart()), true);
  }

  lemma UpdateIsClean(ds: seq<Delivery>, names: Naming, found: FollowUp, order: Order)
    requires Proper(ds) && DistinctGroups(order.groups) && Update(ds, names, found, order).Some?
    ensures Proper(Update(ds, names, found, order).value)
    ensures forall d <- Update(ds, names, found, order).value :: Clean(order, d)
  {
    var next := UpdateGroups(ds, names, found, order.name, order.groups).value;
    GroupsAreProper(ds, names, found, order.name, order.groups);
    DropCleans(next, found, order, 0, |next|);
  }

  lemma ViewsAreSane(ds: seq<Delivery>, id: string)
    ensures var v := ViewOf(ds, id); v.open >= 0.0 && v.lines >= 0.0 && (v.lines == 0.0 ==> v.open == 0.0)
  {
    RefsMeasures(ds, id);
    SumNonNegative(Refs(ds, id), OpenOf());
  }

  /** Where the warehouse replicates orders, what it handles plus what is done is what is ordered. */
  lemma ReplicatingUpdateIsExact(ds: seq<Delivery>, names: Naming, found: FollowUp, order: Order, g: nat, k: nat)
    requires Proper(ds) && DistinctGroups(order.groups) && Update(ds, names, found, order).Some?
    requires g < |order.groups| && order.groups[g].replicates && k < |order.groups[g].rows|
    ensures var row := order.groups[g].rows[k];
        OnWms(Update(ds, names, found, order).value, row.id) == Max(row.ordered - row.done, 0.0)
  {
    var row := order.groups[g].rows[k];
    UpdateSettles(ds, names, found, order, g, k);
    ViewsAreSane(Turn(ds, names, found, order, g, k).value, row.id);
    ViewsAreSane(Update(ds, names, found, order).value, row.id);
  }

  /** The handled quantity arrives at what is wanted: it shrinks, agrees already, or an open line can still grow. */
  predicate Arrives(v: View, row: OrderLine, growable: real) {
    Wanted(row) == v.open || (v.lines > 0.0 && (Wanted(row) < v.open || growable > 0.0))
  }

  /** Elsewhere an increase arrives exactly when, at its turn, some open line's delivery is not under execution. */
  lemma AdaptingUpdateIsExactly(ds: seq<Delivery>, names: Naming, found: FollowUp, order: Order, g: nat, k: nat)
    requires Proper(ds) && DistinctGroups(order.groups) && Update(ds, names, found, order).Some?
    requires g < |order.groups| && !order.groups[g].replicates && k < |order.groups[g].rows|
    ensures Turn(ds, names, found, order, g, k).Some?
    ensures var row := order.groups[g].rows[k];
        var growable := Total(Turn(ds, names, found, order, g, k).value, Growable(row.id));
      growable <= Total(ds, Growable(row.id))
      && (OnWms(Update(ds, names, found, order).value, row.id) == Wanted(row) <==>
          Arrives(ViewOf(ds, row.id), row, growable))
  {
    UpdateSettles(ds, names, found, order, g, k);
  }

  /** The same scope for one row: the deliveries that carry it must not come under execution before its turn. */
  ghost function GrowthScope(ds: seq<Delivery>, order: Order, id: string): Scope {
    ScopeOf(ds, order).(minded := iset{}, kept := (o: string, other: string) => other == id)
  }

  lemma EarlierFits(ds: seq<Delivery>, order: Order, g: nat, k: nat)
    requires DistinctGroups(order.groups) && g < |order.groups| && k < |order.groups[g].rows|
    ensures GroupsFit(ds, Earlier(order.groups, g, k), GrowthScope(ds, order, order.groups[g].rows[k].id))
  {
    var earlier, id := Earlier(order.groups, g, k), order.groups[g].rows[k].id;
    var S := GrowthScope(ds, order, id);
    ScopeFits(ds, order);
    EarlierIsDistinct(order.groups, g, k);
    forall h, j | 0 <= h < |earlier| && 0 <= j < |earlier[h].rows| ensures FitsRow(ds, earlier[h].rows[j], S) {
      var row := earlier[h].rows[j];
      assert row == order.groups[h].rows[j] && FitsRows(ds, order.groups[h].rows, ScopeOf(ds, order));
      assert FitsRow(ds, row, ScopeOf(ds, order)) && Among(earlier[h].rows, row.id);
      forall l: Line ensures NotKept(S, row.id, l) {}
    }
  }

  /** No delivery that could take the increase comes under execution before the row's turn. */
  lemma TurnKeepsRoom(ds: seq<Delivery>, names: Naming, found: FollowUp, order: Order, g: nat, k: nat)
    requires Proper(ds) && DistinctGroups(order.groups) && g < |order.groups| && k < |order.groups[g].rows|
    requires Turn(ds, names, found, order, g, k).Some?
    requires Calm(ds, found, GrowthScope(ds, order, order.groups[g].rows[k].id))
    ensures var id := order.groups[g].rows[k].id;
        Total(Turn(ds, names, found, order, g, k).value, Growable(id)) == Total(ds, Growable(id))
  {
    var id, earlier := order.groups[g].rows[k].id, Earlier(order.groups, g, k);
    var S := GrowthScope(ds, order, id);
    EarlierIsDistinct(order.groups, g, k);
    EarlierFits(ds, order, g, k);
    forall other: string | ListedIn(earlier, other)
      ensures Harmless(Growable(id), other, true)
    {
      OthersAreIgnored(other, id);
    }
    assert Guarded(Growable(id), S, iset{});
    GroupsAreHarmless(ds, names, found, order.name, earlier, Growable(id), true, S);
  }

  /** Told from the state before, when no delivery that could take the increase comes under execution on the way. */
  lemma GrowthIsForeseen(ds: seq<Delivery>, names: Naming, found: FollowUp, order: Order, g: nat, k: nat)
    requires Proper(ds) && DistinctGroups(order.groups) && Update(ds, names, found, order).Some?
    requires g < |order.groups| && !order.groups[g].replicates && k < |order.groups[g].rows|
    requires Calm(ds, found, GrowthScope(ds, order, order.groups[g].rows[k].id))
    ensures var row := order.groups[g].rows[k];
      OnWms(Update(ds, names, found, order).value, row.id) == Wanted(row) <==>
          Arrives(ViewOf(ds, row.id), row, Total(ds, Growable(row.id)))
  {
    AdaptingUpdateIsExactly(ds, names, found, order, g, k);
    TurnKeepsRoom(ds, names, found, order, g, k);
  }

  lemma UpdateIsHarmless(ds: seq<Delivery>, names: Naming, found: FollowUp, order: Order, w: Weight, exactly: bool)
    requires Proper(ds) && DistinctGroups(order.groups) && Update(ds, names, found, order).Some?
    requires (forall id: string :: Listed(order, id) ==> Harmless(w, id, exactly)) && LightWhenGone(w, order, exactly)
    requires Steady(w, exactly) || FindsNothing(found)
    ensures NoMore(Total(ds, w), Total(Update(ds, names, found, order).value, w), exactly)
  {
    forall id: string | ListedIn(order.groups, id) ensures Harmless(w, id, exactly) { assert Listed(order, id); }
    GroupsAreHarmless(ds, names, found, order.name, order.groups, w, exactly, ScopeOf(ds, order));
    GroupsAreProper(ds, names, found, order.name, order.groups);
    var next := UpdateGroups(ds, names, found, order.name, order.groups).value;
    DropIsLight(next, found, order, 0, |next|, w, exactly);
  }

  /** Totals over the lines that the change does not concern: none rises, or (`exactly`) moves, that an allocation
      cannot move. */
  lemma UpdateLeavesOthers(ds: seq<Delivery>, names: Naming, found: FollowUp, order: Order, w: Weight, exactly: bool)
    requires Proper(ds) && DistinctGroups(order.groups) && Update(ds, names, found, order).Some?
    requires forall s: bool, l: Line {:trigger w(s, l)} ::
        Listed(order, l.orderLine) || Gone(order, l) ==> w(s, l) == 0.0
    requires Steady(w, exactly) || FindsNothing(found)
    ensures NoMore(Total(ds, w), Total(Update(ds, names, found, order).value, w), exactly)
  {
    UpdateIsHarmless(ds, names, found, order, w, exactly);
  }

  /** No line is pushed below what is done and allocated on it. */
  lemma ShortfallNeverGrows(ds: seq<Delivery>, names: Naming, found: FollowUp, order: Order)
    requires Proper(ds) && DistinctGroups(order.groups) && Update(ds, names, found, order).Some?
    ensures Total(Update(ds, names, found, order).value, Shortfall()) <= Total(ds, Shortfall())
  {
    ShortfallIsSteady();
    forall id: string | Listed(order, id) ensures Harmless(Shortfall(), id, false) { ShortfallIsHarmless(id); }
    UpdateIsHarmless(ds, names, found, order, Shortfall(), false);
  }

  ghost predicate Covered(ds: seq<Delivery>) {
    forall d: Delivery, l: Line :: d in ds && IsOpen(d) && l in d.lines ==> l.qty >= l.done + l.allocatedQty
  }

  lemma {:induction false} NoShortfallInLines(lines: seq<Line>, started: bool)
    ensures Sum(lines, LineWorth(Shortfall(), started)) >= 0.0
    ensures Sum(lines, LineWorth(Shortfall(), started)) == 0.0 <==>
        forall l <- lines :: l.qty >= l.done + l.allocatedQty
  {
    if |lines| != 0 {
      var n := |lines| - 1;
      NoShortfallInLines(lines[..n], started);
      assert lines == lines[..n] + [lines[n]];
    }
  }

  lemma {:induction false} CoveredIsNoShortfall(ds: seq<Delivery>)
    ensures Total(ds, Shortfall()) >= 0.0
    ensures Total(ds, Shortfall()) == 0.0 <==> Covered(ds)
  {
    if |ds| != 0 {
      var n := |ds| - 1;
      CoveredIsNoShortfall(ds[..n]);
      NoShortfallInLines(ds[n].lines, Started(ds[n]));
      assert ds == ds[..n] + [ds[n]];
    }
  }

  lemma UpdateKeepsLinesCovered(ds: seq<Delivery>, names: Naming, found: FollowUp, order: Order)
    requires Proper(ds) && DistinctGroups(order.groups) && Update(ds, names, found, order).Some? && Covered(ds)
    ensures Covered(Update(ds, names, found, order).value)
  {
    CoveredIsNoShortfall(ds);
    CoveredIsNoShortfall(Update(ds, names, found, order).value);
    ShortfallNeverGrows(ds, names, found, order);
  }
}
