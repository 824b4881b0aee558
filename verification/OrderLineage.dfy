/** Where every delivery comes from that an order update leaves behind, and what has become of those there were. */
module OrderLineage {
  import opened Basics
  import opened Sums
  import opened Sorting
  import opened OrderUpdate
  import opened OrderTotals
  import opened OrderRows
  import opened OrderRuns
  import opened OrderUpdateProofs
  import OrderFollowUp

  // ---------------------------------------------------------------- what may become of a delivery

  predicate SameButQty(l: Line, m: Line) { m == l.(qty := m.qty) }

  /** A draft is deleted, a released delivery cancelled. */
  predicate Withdrawal(before: Status, after: Status) {
    (before.Draft? && after.Deleted?) || (before.Released? && after.Cancelled?)
  }

  ghost predicate SameLines(before: seq<Line>, after: seq<Line>, ids: iset<string>) {
    |after| == |before| && forall p :: 0 <= p < |before| ==>
        SameButQty(before[p], after[p]) && (before[p].orderLine !in ids ==> after[p] == before[p])
  }

  /** Quantities of the order lines in `ids` may have changed, and it may have been withdrawn if it had not started. */
  ghost predicate Kept(d: Delivery, e: Delivery, ids: iset<string>) {
    && e.mode == d.mode && e.executing == d.executing && SameLines(d.lines, e.lines, ids)
    && (e.status != d.status ==> Withdrawal(d.status, e.status) && !Started(d))
    && (!IsOpen(d) ==> e == d)
  }

  /** A delivery is a draft exactly where its warehouse only drafts. */
  predicate FitsMode(d: Delivery) {
    if d.mode.Drafts? then d.status.Draft? || d.status.Deleted? else d.status.Released? || d.status.Cancelled?
  }

  /** Positions in rising order. */
  ghost predicate Picks(from: seq<nat>, n: nat) {
    (forall p :: 0 <= p < |from| ==> from[p] < n) && forall p, q :: 0 <= p < q < |from| ==> from[p] < from[q]
  }

  /** What the release of a delivery allocates to a line: what it finds, up to what the line lacks. */
  function Gain(l: Line, mode: Mode, x: real): real {
    if mode.Allocates? then Min(Max(x, 0.0), Max(l.qty - l.allocatedQty, 0.0)) else 0.0
  }

  ghost predicate IsRenewed(before: Line, after: Line, gain: real) {
    after == before.(qty := after.qty, allocatedQty := before.allocatedQty + gain)
  }

  /** `d` replaces a withdrawn delivery that had not started: it has some of its lines, with all their fields, and what
      the release allocated. */
  ghost predicate Renews(gone: Delivery, d: Delivery, i: nat, found: FollowUp, from: seq<nat>) {
    && |from| == |d.lines| > 0 && Picks(from, |gone.lines|)
    && !IsOpen(gone) && !Started(gone) && d.mode == gone.mode
    && (forall p :: 0 <= p < |from| ==>
        IsRenewed(gone.lines[from[p]], d.lines[p], Gain(gone.lines[from[p]], d.mode, found(i, p))))
    && (d.executing <==> exists p :: 0 <= p < |from| && Gain(gone.lines[from[p]], d.mode, found(i, p)) > 0.0)
  }

  ghost predicate IsCreated(l: Line, order: string, id: string, mode: Mode, x: real) {
    l.qty > 0.0 && l == Line(order, id, l.qty, 0.0, 0.0, if mode.Allocates? then Min(Max(x, 0.0), l.qty) else 0.0)
  }

  /** `d` is the new delivery of a group of the order that replicates, for some of its rows. */
  ghost predicate Created(d: Delivery, i: nat, found: FollowUp, order: string, group: Group, from: seq<nat>) {
    && group.replicates && d.mode == group.mode
    && d.status == (if group.mode.Drafts? then Draft else Released)
    && |from| == |d.lines| > 0 && Picks(from, |group.rows|)
    && (forall p :: 0 <= p < |from| ==> IsCreated(d.lines[p], order, group.rows[from[p]].id, d.mode, found(i, p)))
    && (d.executing <==> exists p :: 0 <= p < |d.lines| && d.lines[p].allocatedQty > 0.0)
  }

  ghost predicate Replaces(ds: seq<Delivery>, i: nat, found: FollowUp)
    requires i < |ds|
  {
    exists j: nat, from: seq<nat> :: j < i && Renews(ds[j], ds[i], i, found, from)
  }

  ghost predicate IsMade(d: Delivery, i: nat, found: FollowUp, order: string, made: seq<Group>) {
    exists g: nat, from: seq<nat> :: g < |made| && Created(d, i, found, order, made[g], from)
  }

  ghost predicate HasOrigin(ds: seq<Delivery>, i: nat, found: FollowUp, order: string, made: seq<Group>)
    requires i < |ds|
  {
    FitsMode(ds[i]) && (Replaces(ds, i, found) || IsMade(ds[i], i, found, order, made))
  }

  /** From `ds` to `after`. */
  ghost predicate Traced(ds: seq<Delivery>, after: seq<Delivery>, found: FollowUp, order: string, made: seq<Group>,
        ids: iset<string>)
  {
    && |ds| <= |after|
    && (forall i :: 0 <= i < |ds| ==> Kept(ds[i], after[i], ids))
    && (forall i :: |ds| <= i < |after| ==> HasOrigin(after, i, found, order, made))
  }

  // ---------------------------------------------------------------- one edit

  ghost predicate NotMade(made: seq<Group>, id: string) { forall g :: 0 <= g < |made| ==> !Among(made[g].rows, id) }

  lemma CreatedIsAmong(d: Delivery, i: nat, found: FollowUp, order: string, made: seq<Group>, p: nat)
    requires p < |d.lines| && IsMade(d, i, found, order, made)
    ensures !NotMade(made, d.lines[p].orderLine)
  {
    var g: nat, from: seq<nat> :| g < |made| && Created(d, i, found, order, made[g], from);
    assert IsCreated(d.lines[p], order, made[g].rows[from[p]].id, d.mode, found(i, p));
    assert Among(made[g].rows, d.lines[p].orderLine);
  }

  /** What one delivery's change leaves of the origins: other deliveries are as they were, and only an open one
      changed. */
  lemma OriginElsewhere(ds: seq<Delivery>, next: seq<Delivery>, c: nat, i: nat, found: FollowUp, order: string,
        made: seq<Group>)
    requires c < |ds| <= |next| && IsOpen(ds[c]) && forall k :: 0 <= k < |ds| && k != c ==> next[k] == ds[k]
    requires i < |ds| && i != c && HasOrigin(ds, i, found, order, made)
    ensures HasOrigin(next, i, found, order, made)
  {
    if Replaces(ds, i, found) {
      var j: nat, from: seq<nat> :| j < i && Renews(ds[j], ds[i], i, found, from);
      assert Renews(next[j], next[i], i, found, from);
    }
  }

  ghost predicate SameOrigin(d: Delivery, e: Delivery) {
    && e.mode == d.mode && e.executing == d.executing && |e.lines| == |d.lines|
    && forall p :: 0 <= p < |d.lines| ==> SameButQty(d.lines[p], e.lines[p])
  }

  lemma OriginOfChanged(ds: seq<Delivery>, next: seq<Delivery>, c: nat, found: FollowUp, order: string,
        made: seq<Group>)
    requires c < |ds| <= |next| && (forall k :: 0 <= k < |ds| && k != c ==> next[k] == ds[k])
    requires HasOrigin(ds, c, found, order, made) && !IsMade(ds[c], c, found, order, made)
    requires SameOrigin(ds[c], next[c]) && FitsMode(next[c])
    ensures HasOrigin(next, c, found, order, made)
  {
    var j: nat, from: seq<nat> :| j < c && Renews(ds[j], ds[c], c, found, from);
    assert Renews(next[j], next[c], c, found, from) by {
      forall p | 0 <= p < |from|
        ensures IsRenewed(next[j].lines[from[p]], next[c].lines[p],
            Gain(next[j].lines[from[p]], next[c].mode, found(c, p)))
      {
        assert IsRenewed(ds[j].lines[from[p]], ds[c].lines[p],
            Gain(ds[j].lines[from[p]], ds[c].mode, found(c, p)));
      }
    }
  }

  /** One delivery changes in a way an old delivery may. */
  lemma ChangeIsTraced(ds: seq<Delivery>, after: seq<Delivery>, next: seq<Delivery>, c: nat, p: nat, found: FollowUp,
        order: string, made: seq<Group>, ids: iset<string>)
    requires Traced(ds, after, found, order, made, ids) && c < |after| == |next| && IsOpen(after[c])
    requires forall k :: 0 <= k < |after| && k != c ==> next[k] == after[k]
    requires p < |after[c].lines| && NotMade(made, after[c].lines[p].orderLine)
    requires SameOrigin(after[c], next[c]) && FitsMode(next[c]) == FitsMode(after[c])
    requires c < |ds| ==> Kept(ds[c], next[c], ids)
    ensures Traced(ds, next, found, order, made, ids)
  {
    forall i | |ds| <= i < |next| ensures HasOrigin(next, i, found, order, made) {
      assert HasOrigin(after, i, found, order, made);
      if i == c {
        if IsMade(after[c], c, found, order, made) { CreatedIsAmong(after[c], c, found, order, made, p); }
        OriginOfChanged(after, next, c, found, order, made);
      } else {
        OriginElsewhere(after, next, c, i, found, order, made);
      }
    }
  }

  lemma QtyIsTraced(ds: seq<Delivery>, after: seq<Delivery>, c: nat, p: nat, q: real, found: FollowUp, order: string,
        made: seq<Group>, ids: iset<string>)
    requires Traced(ds, after, found, order, made, ids) && c < |after| && IsOpen(after[c]) && p < |after[c].lines|
    requires after[c].lines[p].orderLine in ids && NotMade(made, after[c].lines[p].orderLine)
    ensures Traced(ds, SetQty(after, c, p, q), found, order, made, ids)
  {
    var next := SetQty(after, c, p, q);
    if c < |ds| { assert Kept(ds[c], after[c], ids); }
    ChangeIsTraced(ds, after, next, c, p, found, order, made, ids);
  }

  /** Whether a delivery has started does not depend on the quantities. */
  lemma SameStart(d: Delivery, e: Delivery)
    requires SameOrigin(d, e)
    ensures Started(d) == Started(e)
  {
    if AnyStarted(d.lines) {
      var p :| 0 <= p < |d.lines| && LineStarted(d.lines[p]);
      assert LineStarted(e.lines[p]);
    }
    if AnyStarted(e.lines) {
      var p :| 0 <= p < |e.lines| && LineStarted(e.lines[p]);
      assert LineStarted(d.lines[p]);
    }
  }

  lemma WithdrawalIsTraced(ds: seq<Delivery>, after: seq<Delivery>, c: nat, p: nat, found: FollowUp, order: string,
        made: seq<Group>, ids: iset<string>)
    requires Traced(ds, after, found, order, made, ids) && c < |after| && IsOpen(after[c]) && !Started(after[c])
    requires p < |after[c].lines| && NotMade(made, after[c].lines[p].orderLine)
    ensures Traced(ds, after[c := after[c].(status := OrderUpdate.Withdrawn(after[c].status))], found, order, made, ids)
  {
    var next := after[c := after[c].(status := OrderUpdate.Withdrawn(after[c].status))];
    if c < |ds| {
      assert Kept(ds[c], after[c], ids);
      SameStart(ds[c], after[c]);
    }
    ChangeIsTraced(ds, after, next, c, p, found, order, made, ids);
  }

  lemma RenewedRenews(gone: Delivery, kept: seq<Line>, mode: Mode, i: nat, found: FollowUp, from: seq<nat>)
    requires !IsOpen(gone) && !Started(gone) && mode == gone.mode && |kept| > 0
    requires |from| == |kept| && Picks(from, |gone.lines|) && forall p :: 0 <= p < |kept| ==>
        kept[p] == gone.lines[from[p]]
    ensures Renews(gone, NewDelivery(kept, mode, i, found), i, found, from)
    ensures FitsMode(NewDelivery(kept, mode, i, found))
  {
    var d := NewDelivery(kept, mode, i, found);
    forall p | 0 <= p < |kept| ensures d.lines[p] == Held(kept[p], Gain(kept[p], mode, found(i, p))) {}
    if d.executing {
      var p :| 0 <= p < |kept| && d.lines[p] != kept[p];
      assert Gain(gone.lines[from[p]], mode, found(i, p)) > 0.0;
    }
    if p :| 0 <= p < |from| && Gain(gone.lines[from[p]], mode, found(i, p)) > 0.0 {
      assert d.lines[p] != kept[p];
    }
  }

  lemma OriginStays(ds: seq<Delivery>, d: Delivery, i: nat, found: FollowUp, order: string, made: seq<Group>)
    requires i < |ds| && HasOrigin(ds, i, found, order, made)
    ensures HasOrigin(ds + [d], i, found, order, made)
  {
    if Replaces(ds, i, found) {
      var j: nat, from: seq<nat> :| j < i && Renews(ds[j], ds[i], i, found, from);
      assert Renews((ds + [d])[j], (ds + [d])[i], i, found, from);
    }
  }

  lemma AppendIsTraced(ds: seq<Delivery>, after: seq<Delivery>, d: Delivery, found: FollowUp, order: string,
        made: seq<Group>, ids: iset<string>)
    requires Traced(ds, after, found, order, made, ids) && HasOrigin(after + [d], |after|, found, order, made)
    ensures Traced(ds, after + [d], found, order, made, ids)
  {
    forall i | |ds| <= i < |after + [d]| ensures HasOrigin(after + [d], i, found, order, made) {
      if i < |after| {
        assert HasOrigin(after, i, found, order, made);
        OriginStays(after, d, i, found, order, made);
      }
    }
  }

  lemma RebuildIsTraced(ds: seq<Delivery>, after: seq<Delivery>, c: nat, p: nat, kept: seq<Line>, from: seq<nat>,
        found: FollowUp, order: string, made: seq<Group>, ids: iset<string>)
    requires Traced(ds, after, found, order, made, ids) && c < |after| && IsOpen(after[c]) && !Started(after[c])
    requires p < |after[c].lines| && NotMade(made, after[c].lines[p].orderLine)
    requires |from| == |kept| && Picks(from, |after[c].lines|)
    requires forall k :: 0 <= k < |kept| ==> kept[k] == after[c].lines[from[k]]
    ensures Traced(ds, Rebuild(after, c, kept, found), found, order, made, ids)
  {
    var mid := after[c := after[c].(status := OrderUpdate.Withdrawn(after[c].status))];
    WithdrawalIsTraced(ds, after, c, p, found, order, made, ids);
    if |kept| > 0 {
      var d := NewDelivery(kept, after[c].mode, |after|, found);
      RenewedRenews(mid[c], kept, after[c].mode, |after|, found, from);
      assert Renews((mid + [d])[c], (mid + [d])[|mid|], |mid|, found, from);
      AppendIsTraced(ds, mid, d, found, order, made, ids);
    }
  }

  // ---------------------------------------------------------------- the steps of an update

  lemma PicksWithout(lines: seq<Line>, p: nat) returns (from: seq<nat>)
    requires p < |lines|
    ensures |from| == |Without(lines, p)| && Picks(from, |lines|)
    ensures forall k :: 0 <= k < |from| ==> Without(lines, p)[k] == lines[from[k]]
  {
    from := seq(|lines| - 1, k requires 0 <= k < |lines| - 1 => if k < p then k else k + 1);
  }

  lemma TakeIsTraced(ds: seq<Delivery>, after: seq<Delivery>, r: Ref, amount: real, id: string, found: FollowUp,
        order: string, made: seq<Group>, ids: iset<string>)
    requires Traced(ds, after, found, order, made, ids) && Current(after, r, id) && id in ids && NotMade(made, id)
    requires TakeFrom(after, found, r, amount).Some?
    ensures Traced(ds, TakeFrom(after, found, r, amount).value, found, order, made, ids)
  {
    var d, take := after[r.parent], Takes(r, amount);
    if amount > 0.0 && take > 0.0 {
      if r.line.qty - take <= 0.0 && !Started(d) {
        var from := PicksWithout(d.lines, r.pos);
        RebuildIsTraced(ds, after, r.parent, r.pos, Without(d.lines, r.pos), from, found, order, made, ids);
      } else {
        QtyIsTraced(ds, after, r.parent, r.pos, r.line.qty - take, found, order, made, ids);
      }
    }
  }

  ghost predicate TracedSoFar(ds: seq<Delivery>, refs: seq<Ref>, id: string, found: FollowUp, order: string,
        made: seq<Group>, ids: iset<string>, x: seq<Delivery>, k: nat)
  {
    Ready(x, refs, k, id) && Traced(ds, x, found, order, made, ids)
  }

  ghost function Tracing(ds: seq<Delivery>, refs: seq<Ref>, id: string, found: FollowUp, order: string,
        made: seq<Group>, ids: iset<string>): Invariant
  {
    (x: seq<Delivery>, k: nat, left: real) => TracedSoFar(ds, refs, id, found, order, made, ids, x, k)
  }

  lemma TurnIsTraced(ds: seq<Delivery>, refs: seq<Ref>, id: string, found: FollowUp, order: string, made: seq<Group>,
        ids: iset<string>, x: seq<Delivery>, k: nat, left: real)
    requires id in ids && NotMade(made, id)
    ensures TurnKeeps(found, refs, Tracing(ds, refs, id, found, order, made, ids), x, k, left)
  {
    if k < |refs| && TracedSoFar(ds, refs, id, found, order, made, ids, x, k) {
      TakeIsReady(x, found, refs, k, left, id);
      TakeIsTraced(ds, x, refs[k], left, id, found, order, made, ids);
    }
  }

  lemma ReduceIsTraced(ds: seq<Delivery>, after: seq<Delivery>, names: Naming, id: string, amount: real,
        found: FollowUp, order: string, made: seq<Group>, ids: iset<string>)
    requires Proper(after) && id != "" && id in ids && NotMade(made, id)
    requires Traced(ds, after, found, order, made, ids)
    ensures AllPoint(after, NewestLines(after, names, id))
    ensures var reduced := Reduce(after, found, NewestLines(after, names, id), 0, amount);
        reduced.Some? && Traced(ds, reduced.value.0, found, order, made, ids)
  {
    var refs := NewestLines(after, names, id);
    NewestLinesReady(after, names, id);
    forall x: seq<Delivery>, k: nat, left: real
      ensures TurnKeeps(found, refs, Tracing(ds, refs, id, found, order, made, ids), x, k, left)
    {
      TurnIsTraced(ds, refs, id, found, order, made, ids, x, k, left);
    }
    assert TracedSoFar(ds, refs, id, found, order, made, ids, after, 0);
    ReduceKeeps(after, found, refs, 0, amount, Tracing(ds, refs, id, found, order, made, ids));
  }

  lemma {:induction false} GrowthIsTraced(ds: seq<Delivery>, after: seq<Delivery>, refs: seq<Ref>, k: nat, diff: real,
        id: string, found: FollowUp, order: string, made: seq<Group>, ids: iset<string>)
    requires k <= |refs| && AllPoint(after, refs) && CurrentFrom(after, refs, k, id)
    requires Traced(ds, after, found, order, made, ids) && id in ids && NotMade(made, id)
    ensures Traced(ds, Grow(after, refs, k, diff), found, order, made, ids)
    decreases |refs| - k
  {
    if k < |refs| {
      var r := refs[k];
      assert Current(after, r, id);
      if !Started(after[r.parent]) {
        QtyIsTraced(ds, after, r.parent, r.pos, r.line.qty + diff, found, order, made, ids);
      } else {
        GrowthIsTraced(ds, after, refs, k + 1, diff, id, found, order, made, ids);
      }
    }
  }

  lemma RowIsTraced(ds: seq<Delivery>, after: seq<Delivery>, names: Naming, blocks: bool, row: OrderLine,
        found: FollowUp, order: string, made: seq<Group>, ids: iset<string>)
    requires Proper(after) && row.id != "" && row.id in ids && NotMade(made, row.id)
    requires Traced(ds, after, found, order, made, ids) && UpdateRow(after, names, found, blocks, row).Some?
    ensures Traced(ds, UpdateRow(after, names, found, blocks, row).value, found, order, made, ids)
  {
    var diff := RowAdjusts(after, names, found, blocks, row);
    if diff > 0.0 {
      OpenLinesPoint(after, names, row.id);
      GrowthIsTraced(ds, after, OpenLines(after, names, row.id), 0, diff, row.id, found, order, made, ids);
    } else if diff < 0.0 {
      ReduceIsTraced(ds, after, names, row.id, -diff, found, order, made, ids);
    }
  }

  lemma {:induction false} RowsAreTraced(ds: seq<Delivery>, after: seq<Delivery>, names: Naming, blocks: bool,
        rows: seq<OrderLine>, found: FollowUp, order: string, made: seq<Group>, ids: iset<string>)
    requires Proper(after) && UpdateRows(after, names, found, blocks, rows).Some?
    requires forall k :: 0 <= k < |rows| ==> rows[k].id != "" && rows[k].id in ids && NotMade(made, rows[k].id)
    requires Traced(ds, after, found, order, made, ids)
    ensures Proper(UpdateRows(after, names, found, blocks, rows).value)
    ensures Traced(ds, UpdateRows(after, names, found, blocks, rows).value, found, order, made, ids)
    decreases |rows|
  {
    if |rows| > 0 {
      var next := UpdateRow(after, names, found, blocks, rows[0]).value;
      RowIsTraced(ds, after, names, blocks, rows[0], found, order, made, ids);
      StepIsProper(after, names, found, order, RowStep(blocks, rows[0]));
      RowsAreTraced(ds, next, names, blocks, rows[1..], found, order, made, ids);
    }
  }

  // ---------------------------------------------------------------- new deliveries

  function OutstandingOf(ds: seq<Delivery>, row: OrderLine): real { row.ordered - row.done - OnWms(ds, row.id) }

  predicate Wants(ds: seq<Delivery>, row: OrderLine) { OutstandingOf(ds, row) > 0.0 }

  /** A line takes on all that is outstanding of its row. */
  ghost predicate TakesOn(ds: seq<Delivery>, l: Line, order: string, row: OrderLine) {
    Wants(ds, row) && l == Line(order, row.id, OutstandingOf(ds, row), 0.0, 0.0, 0.0)
  }

  ghost predicate TakeOn(ds: seq<Delivery>, lines: seq<Line>, order: string, rows: seq<OrderLine>, from: seq<nat>) {
    && |from| == |lines| && Picks(from, |rows|)
    && (forall p :: 0 <= p < |from| ==> TakesOn(ds, lines[p], order, rows[from[p]]))
    && (forall k :: 0 <= k < |rows| && Wants(ds, rows[k]) ==> k in from)
  }

  lemma TakeOnNext(ds: seq<Delivery>, lines: seq<Line>, order: string, rows: seq<OrderLine>, before: seq<nat>)
    requires |rows| > 0 && TakeOn(ds, lines, order, rows[..|rows| - 1], before)
    ensures var n := |rows| - 1; var row := rows[n];
      if Wants(ds, row)
      then TakeOn(ds, lines + [Line(order, row.id, OutstandingOf(ds, row), 0.0, 0.0, 0.0)], order, rows, before + [n])
      else TakeOn(ds, lines, order, rows, before)
  {
    var n := |rows| - 1;
    forall p | 0 <= p < |before| ensures TakesOn(ds, lines[p], order, rows[before[p]]) {
      assert TakesOn(ds, lines[p], order, rows[..n][before[p]]);
    }
    forall k | 0 <= k < n && Wants(ds, rows[k]) ensures k in before { assert rows[..n][k] == rows[k]; }
    if Wants(ds, rows[n]) { assert (before + [n])[|before|] == n; }
  }

  lemma NewLinesNext(ds: seq<Delivery>, order: string, rows: seq<OrderLine>)
    requires |rows| > 0
    ensures var n := |rows| - 1; var before := NewLines(ds, order, rows[..n]);
      NewLines(ds, order, rows) == if Wants(ds, rows[n])
        then before + [Line(order, rows[n].id, OutstandingOf(ds, rows[n]), 0.0, 0.0, 0.0)] else before
  {
    RefsMeasures(ds, rows[|rows| - 1].id);
  }

  lemma NothingToTakeOn(ds: seq<Delivery>, order: string)
    ensures TakeOn(ds, NewLines(ds, order, []), order, [], [])
  {
  }

  lemma {:induction false} NewLinesTakeOn(ds: seq<Delivery>, order: string,
        rows: seq<OrderLine>) returns (from: seq<nat>)
    ensures TakeOn(ds, NewLines(ds, order, rows), order, rows, from)
  {
    if |rows| == 0 {
      NothingToTakeOn(ds, order);
      from := [];
    } else {
      var n := |rows| - 1;
      var before := NewLinesTakeOn(ds, order, rows[..n]);
      NewLinesNext(ds, order, rows);
      TakeOnNext(ds, NewLines(ds, order, rows[..n]), order, rows, before);
      from := if Wants(ds, rows[n]) then before + [n] else before;
    }
  }

  lemma NewIsCreated(ds: seq<Delivery>, lines: seq<Line>, i: nat, found: FollowUp, order: string, group: Group,
        from: seq<nat>)
    requires group.replicates && |lines| > 0 && TakeOn(ds, lines, order, group.rows, from)
    ensures Created(NewDelivery(lines, group.mode, i, found), i, found, order, group, from)
    ensures FitsMode(NewDelivery(lines, group.mode, i, found))
    ensures forall p :: 0 <= p < |lines| ==> NewDelivery(lines, group.mode, i, found).lines[p].qty == lines[p].qty
  {
    var d := NewDelivery(lines, group.mode, i, found);
    forall p | 0 <= p < |lines| ensures IsCreated(d.lines[p], order, group.rows[from[p]].id, d.mode, found(i, p)) {
      assert TakesOn(ds, lines[p], order, group.rows[from[p]]);
    }
    if d.executing {
      var p :| 0 <= p < |lines| && d.lines[p] != lines[p];
      assert TakesOn(ds, lines[p], order, group.rows[from[p]]) && d.lines[p].allocatedQty > 0.0;
    }
    if p :| 0 <= p < |d.lines| && d.lines[p].allocatedQty > 0.0 {
      assert TakesOn(ds, lines[p], order, group.rows[from[p]]);
    }
  }

  /** One new delivery takes on every row that is not handled in full, each with all that is outstanding of it, or there
      is none. */
  lemma CreatesForAllOutstanding(ds: seq<Delivery>, found: FollowUp, order: string,
        group: Group) returns (from: seq<nat>)
    requires group.replicates
    ensures var after := CreateDelivery(ds, found, order, group);
      if exists k :: 0 <= k < |group.rows| && Wants(ds, group.rows[k])
      then |after| == |ds| + 1 && after[..|ds|] == ds && Created(after[|ds|], |ds|, found, order, group, from)
        && (forall k :: 0 <= k < |group.rows| && Wants(ds, group.rows[k]) ==> k in from)
        && (forall p :: 0 <= p < |from| ==> after[|ds|].lines[p].qty == OutstandingOf(ds, group.rows[from[p]]))
      else after == ds
  {
    from := NewLinesTakeOn(ds, order, group.rows);
    var lines := NewLines(ds, order, group.rows);
    if |lines| > 0 {
      assert TakesOn(ds, lines[0], order, group.rows[from[0]]);
      NewIsCreated(ds, lines, |ds|, found, order, group, from);
      forall p | 0 <= p < |from| ensures TakesOn(ds, lines[p], order, group.rows[from[p]]) {}
    }
  }

  lemma MadeStays(ds: seq<Delivery>, i: nat, found: FollowUp, order: string, made: seq<Group>, group: Group)
    requires i < |ds| && HasOrigin(ds, i, found, order, made)
    ensures HasOrigin(ds, i, found, order, made + [group])
  {
    if IsMade(ds[i], i, found, order, made) {
      var g: nat, from: seq<nat> :| g < |made| && Created(ds[i], i, found, order, made[g], from);
      assert (made + [group])[g] == made[g];
    }
  }

  lemma CreationIsTraced(ds: seq<Delivery>, after: seq<Delivery>, found: FollowUp, order: string, group: Group,
        made: seq<Group>, ids: iset<string>)
    requires Traced(ds, after, found, order, made, ids) && group.replicates
    ensures Traced(ds, CreateDelivery(after, found, order, group), found, order, made + [group], ids)
  {
    NextGroupIsTraced(ds, after, found, order, group, made, ids);
    var from := NewLinesTakeOn(after, order, group.rows);
    var lines := NewLines(after, order, group.rows);
    if |lines| > 0 {
      var d := NewDelivery(lines, group.mode, |after|, found);
      NewIsCreated(after, lines, |after|, found, order, group, from);
      assert (made + [group])[|made|] == group;
      assert IsMade(d, |after|, found, order, made + [group]);
      AppendIsTraced(ds, after, d, found, order, made + [group], ids);
    }
  }

  lemma NextGroupIsTraced(ds: seq<Delivery>, after: seq<Delivery>, found: FollowUp, order: string, group: Group,
        made: seq<Group>, ids: iset<string>)
    requires Traced(ds, after, found, order, made, ids)
    ensures Traced(ds, after, found, order, made + [group], ids)
  {
    forall i | |ds| <= i < |after| ensures HasOrigin(after, i, found, order, made + [group]) {
      assert HasOrigin(after, i, found, order, made);
      MadeStays(after, i, found, order, made, group);
    }
  }

  // ---------------------------------------------------------------- the whole update

  lemma {:induction false} GroupsAreTraced(ds: seq<Delivery>, after: seq<Delivery>, names: Naming, found: FollowUp,
        order: string, made: seq<Group>, groups: seq<Group>, ids: iset<string>)
    requires Proper(after) && DistinctGroups(made + groups) && Traced(ds, after, found, order, made, ids)
    requires forall g, k :: 0 <= g < |groups| && 0 <= k < |groups[g].rows| ==> groups[g].rows[k].id in ids
    requires UpdateGroups(after, names, found, order, groups).Some?
    ensures Proper(UpdateGroups(after, names, found, order, groups).value)
    ensures Traced(ds, UpdateGroups(after, names, found, order, groups).value, found, order, made + groups, ids)
    decreases |groups|
  {
    if |groups| == 0 {
      assert made + groups == made;
    } else {
      var group := groups[0];
      assert (made + groups)[|made|] == group;
      forall k | 0 <= k < |group.rows|
        ensures group.rows[k].id != "" && group.rows[k].id in ids && NotMade(made, group.rows[k].id)
      {
        NotAmongEarlier(made, groups, k);
      }
      RowsAreTraced(ds, after, names, group.blocks, group.rows, found, order, made, ids);
      var mid := UpdateRows(after, names, found, group.blocks, group.rows).value;
      var next := UpdateGroup(after, names, found, order, group).value;
      if group.replicates {
        CreationIsTraced(ds, mid, found, order, group, made, ids);
        CreateIsProper(mid, found, order, group);
      } else {
        NextGroupIsTraced(ds, mid, found, order, group, made, ids);
      }
      assert made + [group] + groups[1..] == made + groups;
      GroupsAreTraced(ds, next, names, found, order, made + [group], groups[1..], ids);
    }
  }

  lemma NotAmongEarlier(made: seq<Group>, groups: seq<Group>, k: nat)
    requires DistinctGroups(made + groups) && |groups| > 0 && k < |groups[0].rows|
    ensures groups[0].rows[k].id != "" && NotMade(made, groups[0].rows[k].id)
  {
    var all, id := made + groups, groups[0].rows[k].id;
    assert all[|made|] == groups[0] && Distinct(all[|made|].rows);
    forall g | 0 <= g < |made| ensures !Among(made[g].rows, id) {
      if j :| 0 <= j < |made[g].rows| && made[g].rows[j].id == id {
        assert all[g].rows[j].id == id && !Among(all[|made|].rows, all[g].rows[j].id);
        assert Among(all[|made|].rows, id);
      }
    }
  }

  lemma {:induction false} PicksStaying(lines: seq<Line>, order: Order) returns (from: seq<nat>)
    ensures |from| == |Filter(lines, Stays(order))| && Picks(from, |lines|)
    ensures forall k :: 0 <= k < |from| ==> Filter(lines, Stays(order))[k] == lines[from[k]]
    decreases |lines|
  {
    from := [];
    if |lines| > 0 {
      var rest := PicksStaying(lines[1..], order);
      var later := seq(|rest|, k requires 0 <= k < |rest| => rest[k] + 1);
      from := if Stays(order)(lines[0]) then [0] + later else later;
    }
  }

  lemma GoneIsNotMade(order: Order, l: Line)
    requires Gone(order, l)
    ensures NotMade(order.groups, l.orderLine)
  {
    forall g | 0 <= g < |order.groups| ensures !Among(order.groups[g].rows, l.orderLine) {
      if k :| 0 <= k < |order.groups[g].rows| && order.groups[g].rows[k].id == l.orderLine {
        assert InOrder(order, l.orderLine);
      }
    }
  }

  lemma DroppingIsTraced(ds: seq<Delivery>, after: seq<Delivery>, found: FollowUp, order: Order, i: nat,
        ids: iset<string>)
    requires i < |after| && Traced(ds, after, found, order.name, order.groups, ids)
    requires IsOpen(after[i]) && !Started(after[i]) && HasGone(order, after[i])
    ensures Traced(ds, Rebuild(after, i, Filter(after[i].lines, Stays(order)), found), found, order.name, order.groups,
        ids)
  {
    var p :| 0 <= p < |after[i].lines| && Gone(order, after[i].lines[p]);
    var from := PicksStaying(after[i].lines, order);
    GoneIsNotMade(order, after[i].lines[p]);
    RebuildIsTraced(ds, after, i, p, Filter(after[i].lines, Stays(order)), from, found, order.name, order.groups, ids);
  }

  lemma {:induction false} DropIsTraced(ds: seq<Delivery>, after: seq<Delivery>, found: FollowUp, order: Order, i: nat,
        n: nat, ids: iset<string>)
    requires i <= n <= |after| && Traced(ds, after, found, order.name, order.groups, ids)
    requires DropRemoved(after, found, order, i, n).Some?
    ensures Traced(ds, DropRemoved(after, found, order, i, n).value, found, order.name, order.groups, ids)
    decreases n - i
  {
    if i < n {
      var next := after;
      if IsOpen(after[i]) && HasGone(order, after[i]) {
        DroppingIsTraced(ds, after, found, order, i, ids);
        next := Rebuild(after, i, Filter(after[i].lines, Stays(order)), found);
      }
      DropIsTraced(ds, next, found, order, i + 1, n, ids);
    }
  }

  /** The order lines that the order names. */
  ghost function ListedIds(order: Order): iset<string> { iset id: string | Listed(order, id) }

  lemma RowsAreListed(order: Order)
    ensures forall g, k :: 0 <= g < |order.groups| && 0 <= k < |order.groups[g].rows| ==>
        order.groups[g].rows[k].id in ListedIds(order)
  {
    forall g, k | 0 <= g < |order.groups| && 0 <= k < |order.groups[g].rows|
      ensures order.groups[g].rows[k].id in ListedIds(order)
    {
      assert Among(order.groups[g].rows, order.groups[g].rows[k].id);
    }
  }

  lemma StartIsTraced(ds: seq<Delivery>, found: FollowUp, order: string, ids: iset<string>)
    ensures Traced(ds, ds, found, order, [], ids)
  {
  }

  /** After an update every old delivery is as it was but for quantities of listed order lines, or withdrawn without
      having started: a draft deleted, a released one cancelled. Every delivery beyond is a draft exactly where its
      warehouse only drafts; it was created for a group of the order that replicates, or replaces a withdrawn one, with
      that one's lines and the warehouse's mode; and it is under execution exactly when its release allocated
      something. */
  lemma UpdateIsTraced(ds: seq<Delivery>, names: Naming, found: FollowUp, order: Order)
    requires Proper(ds) && DistinctGroups(order.groups) && Update(ds, names, found, order).Some?
    ensures Traced(ds, Update(ds, names, found, order).value, found, order.name, order.groups, ListedIds(order))
  {
    assert [] + order.groups == order.groups;
    RowsAreListed(order);
    StartIsTraced(ds, found, order.name, ListedIds(order));
    GroupsAreTraced(ds, ds, names, found, order.name, [], order.groups, ListedIds(order));
    var next := UpdateGroups(ds, names, found, order.name, order.groups).value;
    DropIsTraced(ds, next, found, order, 0, |next|, ListedIds(order));
  }

  /** In particular: a new delivery stays a draft exactly where its warehouse only drafts. */
  lemma NewDeliveriesFitTheirMode(ds: seq<Delivery>, names: Naming, found: FollowUp, order: Order, i: nat)
    requires Proper(ds) && DistinctGroups(order.groups) && Update(ds, names, found, order).Some?
    requires |ds| <= i < |Update(ds, names, found, order).value|
    ensures var d := Update(ds, names, found, order).value[i];
      && (d.mode.Drafts? <==> d.status.Draft? || d.status.Deleted?)
      && (!d.mode.Drafts? <==> d.status.Released? || d.status.Cancelled?)
  {
    UpdateIsTraced(ds, names, found, order);
    assert HasOrigin(Update(ds, names, found, order).value, i, found, order.name, order.groups);
  }

  // ---------------------------------------------------------------- which line grows

  /** An open line of the order line, on a delivery not under execution. */
  predicate MayGrow(ds: seq<Delivery>, id: string, i: nat, p: nat) {
    i < |ds| && IsOpen(ds[i]) && !Started(ds[i]) && p < |ds[i].lines| && ds[i].lines[p].orderLine == id
  }

  lemma ListingOrders(names: Naming)
    ensures Preorder(AsListed(names))
  {
  }

  lemma ListsMayGrow(ds: seq<Delivery>, names: Naming, id: string, i: nat, p: nat)
    requires MayGrow(ds, id, i, p)
    ensures Ref(i, p, ds[i].lines[p]) in OpenLines(ds, names, id)
  {
    OrderFollowUp.RefsHave(ds, i, p);
    SortPermutes(Refs(ds, id), AsListed(names));
    assert Ref(i, p, ds[i].lines[p]) in multiset(OpenLines(ds, names, id));
  }

  /** Nothing listed before position `k` can grow. */
  ghost predicate NoneBefore(ds: seq<Delivery>, refs: seq<Ref>, k: nat)
    requires k <= |refs| && AllPoint(ds, refs)
  {
    forall j :: 0 <= j < k ==> Started(ds[refs[j].parent])
  }

  lemma {:induction false} GrowsFirst(ds: seq<Delivery>, refs: seq<Ref>, k: nat, diff: real) returns (m: nat)
    requires k <= |refs| && AllPoint(ds, refs) && NoneBefore(ds, refs, k)
    ensures m <= |refs| && NoneBefore(ds, refs, m)
    ensures m == |refs| ==> Grow(ds, refs, k, diff) == ds
    ensures m < |refs| ==> !Started(ds[refs[m].parent])
    ensures m < |refs| ==>
        Grow(ds, refs, k, diff) == SetQty(ds, refs[m].parent, refs[m].pos, refs[m].line.qty + diff)
    decreases |refs| - k
  {
    if k == |refs| || !Started(ds[refs[k].parent]) { m := k; } else { m := GrowsFirst(ds, refs, k + 1, diff); }
  }

  /** An increase goes to one line only: the first in the listing whose delivery is not under execution, or to none
      where all are. */
  lemma IncreaseGoesToFirst(ds: seq<Delivery>, names: Naming, found: FollowUp, row: OrderLine) returns (i: nat, p: nat)
    requires Wants(ds, row) && UpdateRow(ds, names, found, false, row).Some?
    ensures var after := UpdateRow(ds, names, found, false, row).value;
      if exists j: nat, q: nat :: MayGrow(ds, row.id, j, q)
      then MayGrow(ds, row.id, i, p)
        && (forall j: nat, q: nat :: MayGrow(ds, row.id, j, q) ==> names.place(i, p) <= names.place(j, q))
        && after == ds[i := ds[i].(lines := ds[i].lines[p := ds[i].lines[p].(qty := ds[i].lines[p].qty +
            OutstandingOf(ds, row))])]
      else after == ds
  {
    var refs := OpenLines(ds, names, row.id);
    OpenLinesMeasure(ds, names, row.id);
    OpenLinesPoint(ds, names, row.id);
    var m := GrowsFirst(ds, refs, 0, OutstandingOf(ds, row));
    i, p := 0, 0;
    if m < |refs| {
      i, p := refs[m].parent, refs[m].pos;
      assert Current(ds, refs[m], row.id);
      assert MayGrow(ds, row.id, i, p);
    }
    forall j: nat, q: nat | MayGrow(ds, row.id, j, q)
      ensures m < |refs| && names.place(i, p) <= names.place(j, q)
    {
      FirstIsListedFirst(ds, names, row.id, m, j, q);
    }
  }

  lemma FirstIsListedFirst(ds: seq<Delivery>, names: Naming, id: string, m: nat, j: nat, q: nat)
    requires MayGrow(ds, id, j, q) && AllPoint(ds, OpenLines(ds, names, id)) && m <= |OpenLines(ds, names, id)|
    requires NoneBefore(ds, OpenLines(ds, names, id), m)
    ensures var refs := OpenLines(ds, names, id);
        m < |refs| && names.place(refs[m].parent, refs[m].pos) <= names.place(j, q)
  {
    var refs := OpenLines(ds, names, id);
    ListsMayGrow(ds, names, id, j, q);
    var k :| 0 <= k < |refs| && refs[k] == Ref(j, q, ds[j].lines[q]);
    ListingOrders(names);
    SortSorts(Refs(ds, id), AsListed(names));
    assert m <= k;
    if m < k { assert AsListed(names)(refs[m], refs[k]); }
  }
}
