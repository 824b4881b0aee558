/** Splits stay within the stock on hand, and reversing a goods issue undoes it. */
module GoodsIssueProofs {
  import opened Basics
  import opened GoodsIssue

  // ---------------------------------------------------------------- splits

  /** Where a line's product is in a unit. */
  function PlaceOf(line: Line, unit: string): Spot { Spot(unit, line.item, line.stockType) }

  /** What is noted for a place, zero where nothing is. */
  function On(m: map<Spot, real>, s: Spot): real { if s in m then m[s] else 0.0 }

  function HeldAt(s: State, p: Position): real { if p in s.stock then s.stock[p] else 0.0 }

  function IssuedOn(s: State, line: string): real { if line in s.issued then s.issued[line] else 0.0 }

  function SplitSum(splits: seq<Split>): real {
    if |splits| == 0 then 0.0 else SplitSum(splits[..|splits| - 1]) + splits[|splits| - 1].quantity
  }

  /** What a line's splits take at a spot. */
  function SplitsAt(line: Line, splits: seq<Split>, spot: Spot): real {
    var n := |splits| - 1;
    if |splits| == 0 then 0.0
    else
      var taken := if PlaceOf(line, splits[n].unit) == spot then splits[n].quantity else 0.0;
      SplitsAt(line, splits[..n], spot) + taken
  }

  /** What all lines' splits together take at a spot. */
  function TakenAt(ready: seq<Ready>, spot: Spot): real {
    var n := |ready| - 1;
    if |ready| == 0 then 0.0 else TakenAt(ready[..n], spot) + SplitsAt(ready[n].line, ready[n].splits, spot)
  }

  lemma OneMoreSplit(line: Line, splits: seq<Split>, split: Split, spot: Spot)
    ensures SplitsAt(line, splits + [split], spot) ==
        SplitsAt(line, splits, spot) + if PlaceOf(line, split.unit) == spot then split.quantity else 0.0
    ensures SplitSum(splits + [split]) == SplitSum(splits) + split.quantity
  {
    assert (splits + [split])[..|splits|] == splits;
  }

  lemma TakeStep(onHand: map<Spot, real>, line: Line, unit: string, f: Filling, spot: Spot)
    ensures var g := TakeFrom(onHand, line, unit, f);
      && On(g.used, spot) - SplitsAt(line, g.splits, spot) == On(f.used, spot) - SplitsAt(line, f.splits, spot)
      && On(f.used, spot) <= On(g.used, spot)
      && (On(f.used, spot) <= Max(On(onHand, spot), 0.0) ==> On(g.used, spot) <= Max(On(onHand, spot), 0.0))
      && SplitSum(g.splits) + g.need == SplitSum(f.splits) + f.need
      && (f.need >= 0.0 ==> g.need >= 0.0)
      && (g.need > 0.0 && spot == PlaceOf(line, unit) ==> f.need > 0.0 && On(g.used, spot) >= On(onHand, spot))
  {
    var free := On(onHand, PlaceOf(line, unit)) - On(f.used, PlaceOf(line, unit));
    if f.need > 0.0 && free > 0.0 { OneMoreSplit(line, f.splits, Split(unit, Min(f.need, free)), spot); }
  }

  lemma {:induction false} FillTakes(onHand: map<Spot, real>, line: Line, used: map<Spot, real>, n: nat, spot: Spot)
    requires n <= |line.units|
    requires On(used, spot) <= Max(On(onHand, spot), 0.0)
    ensures var f := Fill(onHand, line, used, n);
      && On(f.used, spot) == On(used, spot) + SplitsAt(line, f.splits, spot)
      && On(used, spot) <= On(f.used, spot) <= Max(On(onHand, spot), 0.0)
  {
    if n != 0 {
      FillTakes(onHand, line, used, n - 1, spot);
      TakeStep(onHand, line, line.units[n - 1], Fill(onHand, line, used, n - 1), spot);
    }
  }

  lemma {:induction false} PlanTakes(onHand: map<Spot, real>, lines: seq<Line>, spot: Spot)
    ensures var plan := ReadyLines(onHand, lines);
      TakenAt(plan.ready, spot) == On(plan.used, spot) && 0.0 <= On(plan.used, spot) <= Max(On(onHand, spot), 0.0)
  {
    if |lines| != 0 {
      var n := |lines| - 1;
      PlanTakes(onHand, lines[..n], spot);
      FillTakes(onHand, lines[n], ReadyLines(onHand, lines[..n]).used, |lines[n].units|, spot);
    }
  }

  /** Over all lines of a delivery no spot is asked for more than it holds. */
  lemma NeverMoreThanOnHand(onHand: map<Spot, real>, lines: seq<Line>, spot: Spot)
    ensures TakenAt(ReadyLines(onHand, lines).ready, spot) <= Max(On(onHand, spot), 0.0)
  {
    PlanTakes(onHand, lines, spot);
  }

  /** A line gets at most what it needs, and less only after taking all that is left in each of its units. */
  lemma {:induction false} FillsUnlessExhausted(onHand: map<Spot, real>, line: Line, used: map<Spot, real>, n: nat,
        i: nat)
    requires n <= |line.units| && line.picked >= line.issued
    ensures var f := Fill(onHand, line, used, n);
      && SplitSum(f.splits) == line.picked - line.issued - f.need && f.need >= 0.0
      && (f.need > 0.0 && i < n ==>
          On(f.used, PlaceOf(line, line.units[i])) >= On(onHand, PlaceOf(line, line.units[i])))
  {
    if n != 0 {
      FillsUnlessExhausted(onHand, line, used, n - 1, i);
      TakeStep(onHand, line, line.units[n - 1], Fill(onHand, line, used, n - 1), PlaceOf(line, line.units[n - 1]));
      if i < n - 1 {
        TakeStep(onHand, line, line.units[n - 1], Fill(onHand, line, used, n - 1), PlaceOf(line, line.units[i]));
      }
    }
  }

  ghost predicate Exhausted(onHand: map<Spot, real>, used: map<Spot, real>, line: Line) {
    forall i :: 0 <= i < |line.units| ==>
        On(used, PlaceOf(line, line.units[i])) >= On(onHand, PlaceOf(line, line.units[i]))
  }

  ghost predicate Served(onHand: map<Spot, real>, used: map<Spot, real>, r: Ready) {
    SplitSum(r.splits) <= r.remaining && (SplitSum(r.splits) < r.remaining ==> Exhausted(onHand, used, r.line))
  }

  lemma LineIsServed(onHand: map<Spot, real>, line: Line, used: map<Spot, real>)
    requires line.picked > line.issued
    ensures var f := Fill(onHand, line, used, |line.units|);
        Served(onHand, f.used, Ready(line, line.picked - line.issued, f.splits))
  {
    var f := Fill(onHand, line, used, |line.units|);
    FillsUnlessExhausted(onHand, line, used, |line.units|, 0);
    forall i | 0 <= i < |line.units| && f.need > 0.0
      ensures On(f.used, PlaceOf(line, line.units[i])) >= On(onHand, PlaceOf(line, line.units[i]))
    {
      FillsUnlessExhausted(onHand, line, used, |line.units|, i);
    }
  }

  lemma {:induction false} EachIsServed(onHand: map<Spot, real>, lines: seq<Line>, k: nat)
    requires k < |ReadyLines(onHand, lines).ready|
    ensures Served(onHand, ReadyLines(onHand, lines).used, ReadyLines(onHand, lines).ready[k])
  {
    var n := |lines| - 1;
    var before := ReadyLines(onHand, lines[..n]);
    if k < |before.ready| {
      EachIsServed(onHand, lines[..n], k);
      StaysExhausted(onHand, lines, before.ready[k]);
    } else {
      LineIsServed(onHand, lines[n], before.used);
    }
  }

  lemma UsedGrows(onHand: map<Spot, real>, lines: seq<Line>, spot: Spot)
    requires |lines| > 0
    ensures On(ReadyLines(onHand, lines[..|lines| - 1]).used, spot) <= On(ReadyLines(onHand, lines).used, spot)
  {
    var n := |lines| - 1;
    var before := ReadyLines(onHand, lines[..n]);
    PlanTakes(onHand, lines[..n], spot);
    FillTakes(onHand, lines[n], before.used, |lines[n].units|, spot);
  }

  lemma StaysExhausted(onHand: map<Spot, real>, lines: seq<Line>, r: Ready)
    requires |lines| > 0 && Served(onHand, ReadyLines(onHand, lines[..|lines| - 1]).used, r)
    ensures Served(onHand, ReadyLines(onHand, lines).used, r)
  {
    if SplitSum(r.splits) < r.remaining {
      forall i | 0 <= i < |r.line.units|
        ensures On(ReadyLines(onHand, lines).used, PlaceOf(r.line, r.line.units[i])) >= On(onHand,
            PlaceOf(r.line, r.line.units[i]))
      {
        UsedGrows(onHand, lines, PlaceOf(r.line, r.line.units[i]));
      }
    }
  }

  /** A line falls short only when the delivery takes all that its loaded units hold. */
  lemma ShortOnlyWhenExhausted(onHand: map<Spot, real>, lines: seq<Line>, k: nat)
    requires k < |ReadyLines(onHand, lines).ready|
    ensures var ready := ReadyLines(onHand, lines).ready; var r := ready[k];
      && SplitSum(r.splits) <= r.remaining
      && (SplitSum(r.splits) < r.remaining ==> forall i :: 0 <= i < |r.line.units| ==>
          TakenAt(ready, PlaceOf(r.line, r.line.units[i])) >= On(onHand, PlaceOf(r.line, r.line.units[i])))
  {
    var plan := ReadyLines(onHand, lines);
    EachIsServed(onHand, lines, k);
    var r := plan.ready[k];
    assert Served(onHand, plan.used, r);
    forall i | 0 <= i < |r.line.units|
      ensures TakenAt(plan.ready, PlaceOf(r.line, r.line.units[i])) == On(plan.used, PlaceOf(r.line, r.line.units[i]))
    {
      PlanTakes(onHand, lines, PlaceOf(r.line, r.line.units[i]));
    }
  }

  // ---------------------------------------------------------------- posting

  /** Where a row's stock is taken from. */
  function RowPosition(units: map<string, Unit>, row: Row): Position {
    Position(row.unit, if row.unit in units then units[row.unit].bin else "", row.item, row.batch, row.serial,
      row.stockType)
  }

  function RowsAt(units: map<string, Unit>, rows: seq<Row>, p: Position): real {
    var n := |rows| - 1;
    if |rows| == 0 then 0.0 else RowsAt(units, rows[..n], p) + if RowPosition(units, rows[n]) == p then rows[n].quantity
        else 0.0
  }

  function RowsOf(rows: seq<Row>, line: string): real {
    var n := |rows| - 1;
    if |rows| == 0 then 0.0 else RowsOf(rows[..n], line) + if rows[n].line == line then rows[n].quantity else 0.0
  }

  function OriginalEntry(units: map<string, Unit>, row: Row): Entry { Entry(RowPosition(units, row), -row.quantity) }

  /** The document's entries are those of its rows, as they were posted. */
  ghost predicate Holds(ledger: map<EntryKey, Entry>, doc: string, units: map<string, Unit>, rows: seq<Row>) {
    forall i: nat :: (EntryKey(false, doc, i) in ledger <==> i < |rows|) &&
        (i < |rows| ==> ledger[EntryKey(false, doc, i)] == OriginalEntry(units, rows[i]))
  }

  ghost predicate NotReversed(ledger: map<EntryKey, Entry>, doc: string) {
    forall i: nat :: EntryKey(true, doc, i) !in ledger
  }

  lemma PostEntryStep(settings: Settings, s: State, key: EntryKey, entry: Entry, p: Position)
    requires key !in s.ledger && PostEntry(settings, s, key, entry).Some?
    ensures var t := PostEntry(settings, s, key, entry).value;
      && t == s.(stock := t.stock, ledger := s.ledger[key := entry])
      && HeldAt(t, p) == HeldAt(s, p) + if p == entry.position then entry.quantity else 0.0
  {
  }

  lemma PostRowStep(settings: Settings, s: State, doc: string, i: nat, row: Row, p: Position, line: string)
    requires EntryKey(false, doc, i) !in s.ledger && PostRow(settings, s, doc, i, row).Some? && line != ""
    ensures var t := PostRow(settings, s, doc, i, row).value;
      && t.units == s.units && t.ledger == s.ledger[EntryKey(false, doc, i) := OriginalEntry(s.units, row)]
      && HeldAt(t, p) == HeldAt(s, p) - (if RowPosition(s.units, row) == p then row.quantity else 0.0)
      && IssuedOn(t, line) == IssuedOn(s, line) + if row.line == line then row.quantity else 0.0
  {
    PostEntryStep(settings, s, EntryKey(false, doc, i), OriginalEntry(s.units, row), p);
  }

  /** What the ledger holds after the rows. */
  ghost predicate Extends(before: map<EntryKey, Entry>, after: map<EntryKey, Entry>, doc: string,
        units: map<string, Unit>, rows: seq<Row>)
  {
    forall key: EntryKey ::
      if key.doc == doc && !key.reversal then (key in after <==> key.row < |rows|) &&
          (key.row < |rows| ==> after[key] == OriginalEntry(units, rows[key.row]))
      else key in after <==> key in before
  }

  lemma {:induction false} PostRowsEffect(settings: Settings, s: State, doc: string, rows: seq<Row>)
    requires !HasEntries(s, doc) && PostRows(settings, s, doc, rows).Some?
    ensures PostRows(settings, s, doc, rows).value.units == s.units
    ensures Extends(s.ledger, PostRows(settings, s, doc, rows).value.ledger, doc, s.units, rows)
  {
    if |rows| != 0 {
      var n := |rows| - 1;
      var before := PostRows(settings, s, doc, rows[..n]).value;
      PostRowsEffect(settings, s, doc, rows[..n]);
      var key := EntryKey(false, doc, n);
      assert key.doc == doc && key !in before.ledger;
      PostRowStep(settings, before, doc, n, rows[n], RowPosition(s.units, rows[n]), "some line");
      ExtendsStep(s.ledger, before.ledger, doc, s.units, rows);
    }
  }

  lemma ExtendsStep(first: map<EntryKey, Entry>, before: map<EntryKey, Entry>, doc: string, units: map<string, Unit>,
        rows: seq<Row>)
    requires |rows| > 0 && Extends(first, before, doc, units, rows[..|rows| - 1])
    ensures Extends(first, before[EntryKey(false, doc, |rows| - 1) := OriginalEntry(units, rows[|rows| - 1])], doc,
        units, rows)
  {
  }

  lemma {:induction false} PostRowsMove(settings: Settings, s: State, doc: string, rows: seq<Row>, p: Position,
        line: string)
    requires !HasEntries(s, doc) && PostRows(settings, s, doc, rows).Some? && line != ""
    ensures var t := PostRows(settings, s, doc, rows).value;
      HeldAt(t, p) == HeldAt(s, p) - RowsAt(s.units, rows, p) &&
          IssuedOn(t, line) == IssuedOn(s, line) + RowsOf(rows, line)
  {
    if |rows| != 0 {
      var n := |rows| - 1;
      PostRowsMove(settings, s, doc, rows[..n], p, line);
      PostRowsEffect(settings, s, doc, rows[..n]);
      var key := EntryKey(false, doc, n);
      assert key.doc == doc && key !in PostRows(settings, s, doc, rows[..n]).value.ledger;
      PostRowStep(settings, PostRows(settings, s, doc, rows[..n]).value, doc, n, rows[n], p, line);
    }
  }

  /** Posting takes each row from its position and adds it to its line, under one entry for each row. */
  lemma PostEffect(settings: Settings, s: State, doc: string, rows: seq<Row>, p: Position, line: string)
    requires !HasEntries(s, doc) && Post(settings, s, doc, rows).Some? && line != ""
    ensures var t := Post(settings, s, doc, rows).value;
      && HeldAt(t, p) == HeldAt(s, p) - RowsAt(s.units, rows, p) &&
          IssuedOn(t, line) == IssuedOn(s, line) + RowsOf(rows, line)
      && Holds(t.ledger, doc, s.units, rows) && NotReversed(t.ledger, doc)
  {
    PostRowsEffect(settings, s, doc, rows);
    PostRowsMove(settings, s, doc, rows, p, line);
    HoldsAfter(s.ledger, Post(settings, s, doc, rows).value.ledger, doc, s.units, rows);
  }

  lemma HoldsAfter(before: map<EntryKey, Entry>, after: map<EntryKey, Entry>, doc: string, units: map<string, Unit>,
        rows: seq<Row>)
    requires Extends(before, after, doc, units, rows) && forall key <- before.Keys :: key.doc != doc
    ensures Holds(after, doc, units, rows) && NotReversed(after, doc)
  {
    forall i: nat ensures EntryKey(true, doc, i) !in after { assert EntryKey(true, doc, i).doc == doc; }
    forall i: nat
      ensures (EntryKey(false, doc, i) in after <==> i < |rows|)
      ensures (i < |rows| ==> after[EntryKey(false, doc, i)] == OriginalEntry(units, rows[i]))
    {
      assert EntryKey(false, doc, i).doc == doc;
    }
  }

  datatype Step = DoPost(doc: string, rows: seq<Row>) | DoReverse(doc: string, rows: seq<Row>)

  function Run(settings: Settings, s: State, steps: seq<Step>): State
    decreases |steps|
  {
    if |steps| == 0 then s
    else
      var next := match steps[0] case DoPost(doc, rows) => Post(settings, s, doc, rows)
          case DoReverse(doc, rows) => Reverse(settings, s, doc, rows);
      Run(settings, next.GetOr(s), steps[1..])
  }

  lemma {:induction false} PostRowsKeepEntries(settings: Settings, s: State, doc: string, rows: seq<Row>)
    requires PostRows(settings, s, doc, rows).Some?
    ensures s.ledger.Keys <= PostRows(settings, s, doc, rows).value.ledger.Keys
  {
    if |rows| != 0 { PostRowsKeepEntries(settings, s, doc, rows[..|rows| - 1]); }
  }

  lemma {:induction false} ReturnKeepsEntries(settings: Settings, s: State, doc: string, n: nat)
    requires ReturnRows(settings, s, doc, n).Some?
    ensures s.ledger.Keys <= ReturnRows(settings, s, doc, n).value.ledger.Keys
  {
    if n != 0 { ReturnKeepsEntries(settings, s, doc, n - 1); }
  }

  lemma {:induction false} EntriesStay(settings: Settings, s: State, steps: seq<Step>)
    ensures s.ledger.Keys <= Run(settings, s, steps).ledger.Keys
    decreases |steps|
  {
    if |steps| != 0 {
      match steps[0] {
        case DoPost(doc, rows) =>
          if PostRows(settings, s, doc, rows).Some? { PostRowsKeepEntries(settings, s, doc, rows); }
        case DoReverse(doc, rows) =>
          if ReturnRows(settings, s, doc, |rows|).Some? {
            ReturnKeepsEntries(settings, s, doc, |rows|);
            TakingBackMovesNothing(ReturnRows(settings, s, doc, |rows|).value, rows);
          }
      }
      var next := match steps[0] case DoPost(doc, rows) => Post(settings, s, doc, rows)
          case DoReverse(doc, rows) => Reverse(settings, s, doc, rows);
      EntriesStay(settings, next.GetOr(s), steps[1..]);
    }
  }

  /** Whatever is posted and reversed afterwards, its own reversal included, posting a document again does nothing. */
  lemma PostTwiceIsOnce(settings: Settings, s: State, doc: string, rows: seq<Row>, steps: seq<Step>, again: seq<Row>)
    requires |rows| > 0 && Post(settings, s, doc, rows).Some?
    ensures var later := Run(settings, Post(settings, s, doc, rows).value, steps);
        Post(settings, later, doc, again) == Some(later)
  {
    var t := Post(settings, s, doc, rows).value;
    if !HasEntries(s, doc) {
      PostRowsEffect(settings, s, doc, rows);
      assert EntryKey(false, doc, 0) in t.ledger && EntryKey(false, doc, 0).doc == doc;
    }
    assert HasEntries(t, doc);
    EntriesStay(settings, t, steps);
    var key :| key in t.ledger.Keys && key.doc == doc;
    assert key in Run(settings, t, steps).ledger.Keys;
  }

  // ---------------------------------------------------------------- reversing

  lemma {:induction false} ReturnEffect(settings: Settings, s: State, doc: string, units: map<string, Unit>,
        rows: seq<Row>, n: nat, p: Position)
    requires n <= |rows| && Holds(s.ledger, doc, units, rows) && NotReversed(s.ledger, doc)
    requires ReturnRows(settings, s, doc, n).Some?
    ensures var t := ReturnRows(settings, s, doc, n).value;
      && HeldAt(t, p) == HeldAt(s, p) + RowsAt(units, rows[..n], p) && t.issued == s.issued && t.units == s.units
      && (forall i: nat :: EntryKey(false, doc, i) in t.ledger <==> i < |rows|)
      && (forall i: nat :: i < |rows| ==> t.ledger[EntryKey(false, doc, i)] == s.ledger[EntryKey(false, doc, i)])
      && (forall i: nat :: EntryKey(true, doc, i) in t.ledger ==> i < n)
  {
    if n != 0 {
      ReturnEffect(settings, s, doc, units, rows, n - 1, p);
      assert rows[..n][..n - 1] == rows[..n - 1];
    }
  }

  /** Stock that is nowhere negative can take everything back. */
  lemma {:induction false} ReturnSucceeds(settings: Settings, s: State, doc: string, n: nat)
    requires forall p :: HeldAt(s, p) >= 0.0
    requires forall key <- s.ledger.Keys :: key.doc == doc && !key.reversal ==> s.ledger[key].quantity <= 0.0
    ensures ReturnRows(settings, s, doc, n).Some?
    ensures var t := ReturnRows(settings, s, doc, n).value;
      && (forall p :: HeldAt(t, p) >= 0.0)
      && (forall key <- t.ledger.Keys :: key.doc == doc && !key.reversal ==> t.ledger[key].quantity <= 0.0)
  {
    if n != 0 {
      ReturnSucceeds(settings, s, doc, n - 1);
      var before := ReturnRows(settings, s, doc, n - 1).value;
      var key := EntryKey(false, doc, n - 1);
      if key in before.ledger {
        assert key.doc == doc && before.ledger[key].quantity <= 0.0;
        assert HeldAt(before, before.ledger[key].position) >= 0.0;
        var entry := before.ledger[key].(quantity := -before.ledger[key].quantity);
        var back := PostEntry(settings, before, EntryKey(true, doc, n - 1), entry).value;
        forall p ensures HeldAt(back, p) >= 0.0 {
          if EntryKey(true, doc, n - 1) !in before.ledger {
            PostEntryStep(settings, before, EntryKey(true, doc, n - 1), entry, p);
          }
        }
      }
    }
  }

  ghost predicate NonNegative(rows: seq<Row>) { forall i :: 0 <= i < |rows| ==> rows[i].quantity >= 0.0 }

  lemma {:induction false} RowsOfIsNonNegative(rows: seq<Row>, line: string)
    requires NonNegative(rows)
    ensures RowsOf(rows, line) >= 0.0
  {
    if |rows| != 0 { RowsOfIsNonNegative(rows[..|rows| - 1], line); }
  }

  lemma {:induction false} TakesBack(s: State, rows: seq<Row>, line: string)
    requires NonNegative(rows) && IssuedOn(s, line) >= 0.0 && line != ""
    ensures var t := TakeBackIssued(s, rows);
        && t.stock == s.stock
        && t.units == s.units
        && IssuedOn(t, line) == Max(IssuedOn(s, line) - RowsOf(rows, line), 0.0)
  {
    if |rows| != 0 {
      var n := |rows| - 1;
      TakesBack(s, rows[..n], line);
      RowsOfIsNonNegative(rows[..n], line);
      assert rows[n].quantity >= 0.0;
    }
  }

  lemma {:induction false} TakingBackMovesNothing(s: State, rows: seq<Row>)
    ensures var t := TakeBackIssued(s, rows); t.stock == s.stock && t.units == s.units && t.ledger == s.ledger
  {
    if |rows| != 0 { TakingBackMovesNothing(s, rows[..|rows| - 1]); }
  }

  /** Whatever happened since the posting, a reversal puts every row back where it came from; a line gets its quantity
      back exactly when at least that much is still issued on it. */
  lemma ReverseUndoesExactly(settings: Settings, s: State, doc: string, units: map<string, Unit>, rows: seq<Row>,
        p: Position, line: string)
    requires |rows| > 0 && Holds(s.ledger, doc, units, rows) && NotReversed(s.ledger, doc)
    requires Reverse(settings, s, doc, rows).Some?
    requires NonNegative(rows) && IssuedOn(s, line) >= 0.0 && line != ""
    ensures var t := Reverse(settings, s, doc, rows).value;
      && HeldAt(t, p) == HeldAt(s, p) + RowsAt(units, rows, p)
      && (IssuedOn(t, line) == IssuedOn(s, line) - RowsOf(rows, line) <==> IssuedOn(s, line) >= RowsOf(rows, line))
  {
    SomeOriginal(s, doc, units, rows);
    ReturnedAll(settings, s, doc, units, rows, p);
    TakesBack(ReturnRows(settings, s, doc, |rows|).value, rows, line);
  }

  lemma ReturnedAll(settings: Settings, s: State, doc: string, units: map<string, Unit>, rows: seq<Row>, p: Position)
    requires Holds(s.ledger, doc, units, rows) && NotReversed(s.ledger, doc)
    requires ReturnRows(settings, s, doc, |rows|).Some?
    ensures var t := ReturnRows(settings, s, doc, |rows|).value;
        HeldAt(t, p) == HeldAt(s, p) + RowsAt(units, rows, p) && t.issued == s.issued && t.units == s.units
  {
    ReturnEffect(settings, s, doc, units, rows, |rows|, p);
    assert rows[..|rows|] == rows;
  }

  lemma SomeOriginal(s: State, doc: string, units: map<string, Unit>, rows: seq<Row>)
    requires |rows| > 0 && Holds(s.ledger, doc, units, rows)
    ensures OriginalUnits(s, doc) != {}
    ensures forall i :: 0 <= i < |rows| ==> rows[i].unit in OriginalUnits(s, doc)
  {
    forall i | 0 <= i < |rows| ensures rows[i].unit in OriginalUnits(s, doc) {
      var key := EntryKey(false, doc, i);
      assert key in s.ledger && s.ledger[key].position.unit == rows[i].unit;
    }
    assert rows[0].unit in OriginalUnits(s, doc);
  }

  /** Posting and then reversing restores stock and issued quantities, and leaves the units staged. */
  lemma PostThenReverse(settings: Settings, s: State, doc: string, rows: seq<Row>, p: Position, line: string)
    requires |rows| > 0 && !HasEntries(s, doc) && NonNegative(rows) && IssuedOn(s, line) >= 0.0 && line != ""
    requires Post(settings, s, doc, rows).Some?
    requires Reverse(settings, Post(settings, s, doc, rows).value, doc, rows).Some?
    ensures var t := Reverse(settings, Post(settings, s, doc, rows).value, doc, rows).value;
      && HeldAt(t, p) == HeldAt(s, p) && IssuedOn(t, line) == IssuedOn(s, line)
      && (forall i :: 0 <= i < |rows| && rows[i].unit in t.units ==> t.units[rows[i].unit].status == Staged)
  {
    var posted := Post(settings, s, doc, rows).value;
    PostEffect(settings, s, doc, rows, p, line);
    RowsOfIsNonNegative(rows, line);
    ReverseUndoesExactly(settings, posted, doc, s.units, rows, p, line);
    SomeOriginal(posted, doc, s.units, rows);
    TakingBackMovesNothing(ReturnRows(settings, posted, doc, |rows|).value, rows);
    ReturnEffect(settings, posted, doc, s.units, rows, |rows|, p);
  }
}
