/** Which lines are offered for a goods issue and from which units, what refuses a posting, and what posting and
    reversing leave behind. */
module GoodsIssueEffects {
  import opened Basics
  import opened Sorting
  import opened GoodsIssue
  import opened GoodsIssueProofs

  // ---------------------------------------------------------------- the lines

  function Owes(): Line -> bool { (l: Line) => l.picked > l.issued }

  function LinesOf(ready: seq<Ready>): (r: seq<Line>)
    ensures |r| == |ready|
  {
    seq(|ready|, k requires 0 <= k < |ready| => ready[k].line)
  }

  /** Every line that still owes an issue is offered once, in order, with what it owes. */
  lemma {:induction false} AllOwingAreListed(onHand: map<Spot, real>, lines: seq<Line>)
    ensures var ready := ReadyLines(onHand, lines).ready;
      LinesOf(ready) == Filter(lines, Owes()) &&
        forall k :: 0 <= k < |ready| ==> ready[k].remaining == ready[k].line.picked - ready[k].line.issued
  {
    if |lines| > 0 {
      var n := |lines| - 1;
      var before, ready := ReadyLines(onHand, lines[..n]).ready, ReadyLines(onHand, lines).ready;
      AllOwingAreListed(onHand, lines[..n]);
      FilterLast(lines, Owes());
      assert LinesOf(ready) == LinesOf(before) + if Owes()(lines[n]) then [lines[n]] else [];
    }
  }

  // ---------------------------------------------------------------- the units of a line

  predicate IsUsedUp(onHand: map<Spot, real>, used: map<Spot, real>, spot: Spot) {
    On(used, spot) >= On(onHand, spot)
  }

  ghost predicate UsedUpBefore(onHand: map<Spot, real>, used: map<Spot, real>, line: Line, q: nat)
    requires q <= |line.units|
  {
    forall p :: 0 <= p < q ==> IsUsedUp(onHand, used, PlaceOf(line, line.units[p]))
  }

  /** A split takes something from one of the first `n` units, and only when those before it are used up. */
  ghost predicate IsSplit(onHand: map<Spot, real>, used: map<Spot, real>, line: Line, n: nat, split: Split)
    requires n <= |line.units|
  {
    && split.quantity > 0.0
    && exists q :: 0 <= q < n && line.units[q] == split.unit && UsedUpBefore(onHand, used, line, q)
  }

  ghost predicate AllSplit(onHand: map<Spot, real>, used: map<Spot, real>, line: Line, n: nat, splits: seq<Split>)
    requires n <= |line.units|
  {
    forall k :: 0 <= k < |splits| ==> IsSplit(onHand, used, line, n, splits[k])
  }

  /** Use only grows. */
  ghost predicate UsesMore(before: map<Spot, real>, after: map<Spot, real>) {
    forall spot: Spot :: On(before, spot) <= On(after, spot)
  }

  lemma StaysSplit(onHand: map<Spot, real>, before: map<Spot, real>, after: map<Spot, real>, line: Line, m: nat, n: nat,
        split: Split)
    requires m <= n <= |line.units| && IsSplit(onHand, before, line, m, split) && UsesMore(before, after)
    ensures IsSplit(onHand, after, line, n, split)
  {
    var q :| 0 <= q < m && line.units[q] == split.unit && UsedUpBefore(onHand, before, line, q);
    assert UsedUpBefore(onHand, after, line, q);
  }

  lemma TakeUses(onHand: map<Spot, real>, line: Line, unit: string, f: Filling)
    ensures UsesMore(f.used, TakeFrom(onHand, line, unit, f).used)
  {
    forall spot: Spot ensures On(f.used, spot) <= On(TakeFrom(onHand, line, unit, f).used, spot) {
      TakeStep(onHand, line, unit, f, spot);
    }
  }

  /** While more is needed, the units looked at are used up. */
  ghost predicate NeedsOn(onHand: map<Spot, real>, f: Filling, line: Line, n: nat)
    requires n <= |line.units|
  {
    f.need > 0.0 ==> UsedUpBefore(onHand, f.used, line, n)
  }

  lemma {:induction false} FillSplits(onHand: map<Spot, real>, line: Line, used: map<Spot, real>, n: nat)
    requires n <= |line.units|
    ensures var f := Fill(onHand, line, used, n);
      AllSplit(onHand, f.used, line, n, f.splits) && NeedsOn(onHand, f, line, n) && UsesMore(used, f.used)
  {
    if n > 0 {
      var k := n - 1;
      var before, after := Fill(onHand, line, used, k), Fill(onHand, line, used, n);
      FillSplits(onHand, line, used, k);
      TakeUses(onHand, line, line.units[k], before);
      forall i | 0 <= i < |after.splits| ensures IsSplit(onHand, after.used, line, n, after.splits[i]) {
        if i < |before.splits| {
          StaysSplit(onHand, before.used, after.used, line, k, n, before.splits[i]);
        } else {
          assert line.units[k] == after.splits[i].unit;
        }
      }
      if after.need > 0.0 {
        forall p | 0 <= p < n ensures IsUsedUp(onHand, after.used, PlaceOf(line, line.units[p])) {
          if p == k { TakeStep(onHand, line, line.units[k], before, PlaceOf(line, line.units[k])); }
        }
      }
    }
  }

  lemma LineUses(onHand: map<Spot, real>, lines: seq<Line>)
    requires |lines| > 0
    ensures UsesMore(ReadyLines(onHand, lines[..|lines| - 1]).used, ReadyLines(onHand, lines).used)
  {
    var n := |lines| - 1;
    if lines[n].picked > lines[n].issued {
      FillSplits(onHand, lines[n], ReadyLines(onHand, lines[..n]).used, |lines[n].units|);
    }
  }

  /** The splits of a line take its units in order: a unit is touched only when those before it are used up by the
      delivery. */
  lemma {:induction false} UnitsAreTakenInOrder(onHand: map<Spot, real>, lines: seq<Line>, k: nat, i: nat)
    requires k < |ReadyLines(onHand, lines).ready| && i < |ReadyLines(onHand, lines).ready[k].splits|
    ensures var plan := ReadyLines(onHand, lines); var r := plan.ready[k];
      IsSplit(onHand, plan.used, r.line, |r.line.units|, r.splits[i])
  {
    var n := |lines| - 1;
    var before, plan := ReadyLines(onHand, lines[..n]), ReadyLines(onHand, lines);
    if k < |before.ready| {
      var r := before.ready[k];
      UnitsAreTakenInOrder(onHand, lines[..n], k, i);
      LineUses(onHand, lines);
      StaysSplit(onHand, before.used, plan.used, r.line, |r.line.units|, |r.line.units|, r.splits[i]);
    } else {
      FillSplits(onHand, lines[n], before.used, |lines[n].units|);
    }
  }

  // ---------------------------------------------------------------- the first lines first

  predicate IsServed(r: Ready) { SplitSum(r.splits) >= r.remaining }

  ghost predicate WasServed(onHand: map<Spot, real>, used: map<Spot, real>, r: Ready) {
    IsServed(r) || UsedUpBefore(onHand, used, r.line, |r.line.units|)
  }

  /** Nothing is split off a spot that was used up before. */
  lemma {:induction false} NothingFromUsedUp(onHand: map<Spot, real>, line: Line, used: map<Spot, real>, n: nat, i: nat)
    requires n <= |line.units| && i < |Fill(onHand, line, used, n).splits|
    ensures !IsUsedUp(onHand, used, PlaceOf(line, Fill(onHand, line, used, n).splits[i].unit))
  {
    var k := n - 1;
    var before := Fill(onHand, line, used, k);
    if i < |before.splits| {
      NothingFromUsedUp(onHand, line, used, k, i);
    } else {
      var spot := PlaceOf(line, line.units[k]);
      FillSplits(onHand, line, used, k);
      assert SpotOf(line, line.units[k]) == spot && On(used, spot) <= On(before.used, spot);
    }
  }

  lemma {:induction false} EachWasServed(onHand: map<Spot, real>, lines: seq<Line>, k: nat)
    requires k < |ReadyLines(onHand, lines).ready|
    ensures WasServed(onHand, ReadyLines(onHand, lines).used, ReadyLines(onHand, lines).ready[k])
  {
    var n := |lines| - 1;
    var before, plan := ReadyLines(onHand, lines[..n]), ReadyLines(onHand, lines);
    if k < |before.ready| {
      var r := before.ready[k];
      EachWasServed(onHand, lines[..n], k);
      LineUses(onHand, lines);
      if !IsServed(r) { assert UsedUpBefore(onHand, plan.used, r.line, |r.line.units|); }
    } else {
      FillSplits(onHand, lines[n], before.used, |lines[n].units|);
      SplitsAreNeeds(onHand, lines[n], before.used, |lines[n].units|);
    }
  }

  lemma {:induction false} SplitsAreNeeds(onHand: map<Spot, real>, line: Line, used: map<Spot, real>, n: nat)
    requires n <= |line.units|
    ensures var f := Fill(onHand, line, used, n); SplitSum(f.splits) + f.need == line.picked - line.issued
  {
    if n > 0 {
      SplitsAreNeeds(onHand, line, used, n - 1);
      TakeStep(onHand, line, line.units[n - 1], Fill(onHand, line, used, n - 1), PlaceOf(line, ""));
    }
  }

  predicate SharesSpot(a: Line, b: Line, unit: string) {
    unit in a.units && a.item == b.item && a.stockType == b.stockType
  }

  /** A later line gets something from a unit only when every earlier line that could have had it is served in full. */
  lemma {:induction false} EarlierLinesFirst(onHand: map<Spot, real>, lines: seq<Line>, k: nat, m: nat, i: nat)
    requires k < m < |ReadyLines(onHand, lines).ready| && i < |ReadyLines(onHand, lines).ready[m].splits|
    requires var ready := ReadyLines(onHand, lines).ready;
        SharesSpot(ready[k].line, ready[m].line, ready[m].splits[i].unit)
    ensures IsServed(ReadyLines(onHand, lines).ready[k])
  {
    var n := |lines| - 1;
    var before, plan := ReadyLines(onHand, lines[..n]), ReadyLines(onHand, lines);
    if m < |before.ready| {
      EarlierLinesFirst(onHand, lines[..n], k, m, i);
    } else {
      var r, unit := plan.ready[k], plan.ready[m].splits[i].unit;
      EachWasServed(onHand, lines[..n], k);
      NothingFromUsedUp(onHand, lines[n], before.used, |lines[n].units|, i);
      var p :| 0 <= p < |r.line.units| && r.line.units[p] == unit;
      assert PlaceOf(r.line, r.line.units[p]) == PlaceOf(lines[n], unit);
    }
  }

  // ---------------------------------------------------------------- what refuses a posting

  /** The row's unit is loaded and at a door, and has its serial number where one is needed. */
  predicate MayShip(settings: Settings, units: map<string, Unit>, row: Row) {
    row.unit in units && units[row.unit].status == Loaded && units[row.unit].bin in settings.doors &&
        !(row.item in settings.needSerial && row.serial == "")
  }

  /** After the rows before it the position still holds the row's quantity, or may become negative. */
  predicate IsCovered(settings: Settings, s: State, rows: seq<Row>, i: nat)
    requires i < |rows|
  {
    var p := RowPosition(s.units, rows[i]);
    settings.allowNegative || HeldAt(s, p) - RowsAt(s.units, rows[..i], p) >= rows[i].quantity
  }

  ghost predicate AllMayPost(settings: Settings, s: State, rows: seq<Row>) {
    forall i :: 0 <= i < |rows| ==> MayShip(settings, s.units, rows[i]) && IsCovered(settings, s, rows, i)
  }

  lemma {:induction false} StockAfterRows(settings: Settings, s: State, doc: string, rows: seq<Row>, p: Position)
    requires !HasEntries(s, doc) && PostRows(settings, s, doc, rows).Some?
    ensures HeldAt(PostRows(settings, s, doc, rows).value, p) == HeldAt(s, p) - RowsAt(s.units, rows, p)
  {
    PostRowsMove(settings, s, doc, rows, p, "line");
  }

  lemma LastRowPosts(settings: Settings, s: State, doc: string, rows: seq<Row>)
    requires |rows| > 0 && !HasEntries(s, doc) && PostRows(settings, s, doc, rows[..|rows| - 1]).Some?
    ensures var n := |rows| - 1;
      PostRows(settings, s, doc, rows).Some? <==>
        MayShip(settings, s.units, rows[n]) && IsCovered(settings, s, rows, n)
  {
    var n := |rows| - 1;
    var before := PostRows(settings, s, doc, rows[..n]).value;
    PostRowsEffect(settings, s, doc, rows[..n]);
    StockAfterRows(settings, s, doc, rows[..n], RowPosition(s.units, rows[n]));
    assert EntryKey(false, doc, n) !in before.ledger;
  }

  lemma OneMoreMayPost(settings: Settings, s: State, rows: seq<Row>)
    requires |rows| > 0
    ensures var n := |rows| - 1;
      AllMayPost(settings, s, rows) <==>
        AllMayPost(settings, s, rows[..n]) && MayShip(settings, s.units, rows[n]) && IsCovered(settings, s, rows, n)
  {
    var n := |rows| - 1;
    forall i | 0 <= i < n ensures IsCovered(settings, s, rows[..n], i) == IsCovered(settings, s, rows, i) {
      assert rows[..n][..i] == rows[..i];
    }
    if AllMayPost(settings, s, rows) {
      forall i | 0 <= i < n
        ensures MayShip(settings, s.units, rows[..n][i]) && IsCovered(settings, s, rows[..n], i)
      {
        assert MayShip(settings, s.units, rows[i]) && IsCovered(settings, s, rows, i);
      }
    }
    if AllMayPost(settings, s, rows[..n]) {
      forall i | 0 <= i < n ensures MayShip(settings, s.units, rows[i]) && IsCovered(settings, s, rows, i) {
        assert MayShip(settings, s.units, rows[..n][i]) && IsCovered(settings, s, rows[..n], i);
      }
    }
  }

  lemma {:induction false} RowsPostExactly(settings: Settings, s: State, doc: string, rows: seq<Row>)
    requires !HasEntries(s, doc)
    ensures PostRows(settings, s, doc, rows).Some? <==> AllMayPost(settings, s, rows)
  {
    if |rows| > 0 {
      RowsPostExactly(settings, s, doc, rows[..|rows| - 1]);
      OneMoreMayPost(settings, s, rows);
      if PostRows(settings, s, doc, rows[..|rows| - 1]).Some? { LastRowPosts(settings, s, doc, rows); }
    }
  }

  /** A posting succeeds if and only if the document is posted already, or each row's unit may be shipped and the stock
      covers the rows one after the other. */
  lemma PostSucceedsExactly(settings: Settings, s: State, doc: string, rows: seq<Row>)
    ensures Post(settings, s, doc, rows).Some? <==>
        (exists key <- s.ledger.Keys :: key.doc == doc) || AllMayPost(settings, s, rows)
  {
    if !HasEntries(s, doc) { RowsPostExactly(settings, s, doc, rows); }
  }

  /** The units of the rows are in the new status, and every other unit is as it was. */
  ghost predicate Marked(before: map<string, Unit>, after: map<string, Unit>, names: set<string>, status: UnitStatus) {
    after.Keys == before.Keys && forall u <- before.Keys ::
        after[u] == if u in names then before[u].(status := status) else before[u]
  }

  /** Posting ships exactly the units of the rows and marks the document; one that is posted already changes nothing. */
  lemma PostShipsExactly(settings: Settings, s: State, doc: string, rows: seq<Row>)
    requires Post(settings, s, doc, rows).Some?
    ensures var t := Post(settings, s, doc, rows).value;
      if exists key <- s.ledger.Keys :: key.doc == doc then t == s
      else Marked(s.units, t.units, set r <- rows :: r.unit, Shipped) && t.docs == s.docs[doc := Posted]
  {
    if !HasEntries(s, doc) {
      PostRowsEffect(settings, s, doc, rows);
      RowUnits(rows);
      PostRowsDocs(settings, s, doc, rows);
    }
  }

  lemma RowUnits(rows: seq<Row>)
    ensures UnitsOf(rows) == set r <- rows :: r.unit
  {
    forall u | u in UnitsOf(rows) ensures u in set r <- rows :: r.unit {
      var i :| 0 <= i < |rows| && rows[i].unit == u;
      assert rows[i] in rows;
    }
    forall r | r in rows ensures r.unit in UnitsOf(rows) {
      var i :| 0 <= i < |rows| && rows[i] == r;
    }
  }

  lemma {:induction false} PostRowsDocs(settings: Settings, s: State, doc: string, rows: seq<Row>)
    requires PostRows(settings, s, doc, rows).Some?
    ensures PostRows(settings, s, doc, rows).value.docs == s.docs
  {
    if |rows| > 0 { PostRowsDocs(settings, s, doc, rows[..|rows| - 1]); }
  }

  // ---------------------------------------------------------------- reversing

  /** The first `n` entries of the document are posted back, each with its quantity turned round. */
  ghost predicate Returned(before: map<EntryKey, Entry>, after: map<EntryKey, Entry>, doc: string, n: nat) {
    forall key: EntryKey :: IsReturned(before, after, doc, n, key)
  }

  ghost predicate IsReturned(before: map<EntryKey, Entry>, after: map<EntryKey, Entry>, doc: string, n: nat,
        key: EntryKey)
  {
    var original := EntryKey(false, doc, key.row);
    if key.doc == doc && key.reversal && key.row < n && original in before
    then key in after && after[key] == before[original].(quantity := 0.0 - before[original].quantity)
    else (key in after <==> key in before) && (key in before ==> after[key] == before[key])
  }

  lemma {:induction false} RowsAreReturned(settings: Settings, s: State, doc: string, n: nat)
    requires ReturnRows(settings, s, doc, n).Some? && NotReversed(s.ledger, doc)
    ensures var t := ReturnRows(settings, s, doc, n).value;
      Returned(s.ledger, t.ledger, doc, n) && t.units == s.units && t.docs == s.docs
  {
    if n > 0 {
      var k := n - 1;
      var before, after := ReturnRows(settings, s, doc, k).value, ReturnRows(settings, s, doc, n).value;
      RowsAreReturned(settings, s, doc, k);
      assert IsReturned(s.ledger, before.ledger, doc, k, EntryKey(false, doc, k));
      assert IsReturned(s.ledger, before.ledger, doc, k, EntryKey(true, doc, k));
      forall key: EntryKey ensures IsReturned(s.ledger, after.ledger, doc, n, key) {
        assert IsReturned(s.ledger, before.ledger, doc, k, key);
      }
    }
  }

  lemma {:induction false} TakingBackKeeps(s: State, rows: seq<Row>)
    ensures TakeBackIssued(s, rows).ledger == s.ledger && TakeBackIssued(s, rows).docs == s.docs
    ensures TakeBackIssued(s, rows).units == s.units
  {
    if |rows| > 0 { TakingBackKeeps(s, rows[..|rows| - 1]); }
  }

  /** A reversal posts every original entry back, stages the units they came from, and marks the document; without any
      it changes nothing. */
  lemma ReverseReturnsExactly(settings: Settings, s: State, doc: string, rows: seq<Row>)
    requires Reverse(settings, s, doc, rows).Some? && NotReversed(s.ledger, doc)
    ensures var t := Reverse(settings, s, doc, rows).value;
      var from := set key <- s.ledger.Keys | key.doc == doc && !key.reversal :: s.ledger[key].position.unit;
      && (from == {} ==> t == s)
      && (from != {} ==> Returned(s.ledger, t.ledger, doc, |rows|) && Marked(s.units, t.units, from, Staged))
      && (from != {} ==> t.docs == s.docs[doc := Reversed])
  {
    assert OriginalUnits(s, doc) ==
        set key <- s.ledger.Keys | key.doc == doc && !key.reversal :: s.ledger[key].position.unit;
    if OriginalUnits(s, doc) != {} {
      RowsAreReturned(settings, s, doc, |rows|);
      TakingBackKeeps(ReturnRows(settings, s, doc, |rows|).value, rows);
    }
  }
}
