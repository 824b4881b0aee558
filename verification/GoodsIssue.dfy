/** Goods issue: spreading a delivery's lines over loaded handling units, posting, and reversing. */
module GoodsIssue {
  import opened Basics

  // ---------------------------------------------------------------- what is ready to ship

  datatype Spot = Spot(unit: string, item: string, stockType: string)

  /** `units`: the loaded handling units the line's stock can be in, each once. */
  datatype Line = Line(name: string, item: string, stockType: string, picked: real, issued: real, units: seq<string>)

  datatype Split = Split(unit: string, quantity: real)

  datatype Ready = Ready(line: Line, remaining: real, splits: seq<Split>)

  function At(m: map<Spot, real>, s: Spot): real { if s in m then m[s] else 0.0 }

  function SpotOf(line: Line, unit: string): Spot { Spot(unit, line.item, line.stockType) }

  /** The first `n` units of a line: the splits so far, what is split of each spot, and what is still needed. */
  datatype Filling = Filling(splits: seq<Split>, used: map<Spot, real>, need: real)

  function TakeFrom(onHand: map<Spot, real>, line: Line, unit: string, f: Filling): Filling {
    var spot := SpotOf(line, unit);
    var free := At(onHand, spot) - At(f.used, spot);
    if f.need <= 0.0 || free <= 0.0 then f
    else
      var take := Min(f.need, free);
      Filling(f.splits + [Split(unit, take)], f.used[spot := At(f.used, spot) + take], f.need - take)
  }

  function Fill(onHand: map<Spot, real>, line: Line, used: map<Spot, real>, n: nat): Filling
    requires n <= |line.units|
  {
    if n == 0 then Filling([], used, line.picked - line.issued)
        else TakeFrom(onHand, line, line.units[n - 1], Fill(onHand, line, used, n - 1))
  }

  datatype Plan = Plan(ready: seq<Ready>, used: map<Spot, real>)

  function ReadyLines(onHand: map<Spot, real>, lines: seq<Line>): Plan {
    var n := |lines| - 1;
    if |lines| == 0 then Plan([], map[])
    else
      var before := ReadyLines(onHand, lines[..n]);
      var remaining := lines[n].picked - lines[n].issued;
      if remaining <= 0.0 then before
      else
        var f := Fill(onHand, lines[n], before.used, |lines[n].units|);
        Plan(before.ready + [Ready(lines[n], remaining, f.splits)], f.used)
  }

  method ListReadyLines(onHand: map<Spot, real>, lines: seq<Line>) returns (ready: seq<Ready>)
    ensures ready == ReadyLines(onHand, lines).ready
  {
    var used: map<Spot, real> := map[];
    ready := [];
    for k := 0 to |lines|
      invariant Plan(ready, used) == ReadyLines(onHand, lines[..k])
    {
      assert lines[..k + 1][..k] == lines[..k];
      var line := lines[k];
      var remaining := line.picked - line.issued;
      if remaining <= 0.0 { continue; }
      var f := FillLine(onHand, line, used);
      ready, used := ready + [Ready(line, remaining, f.splits)], f.used;
    }
    assert lines[..|lines|] == lines;
  }

  method FillLine(onHand: map<Spot, real>, line: Line, alreadyUsed: map<Spot, real>) returns (f: Filling)
    ensures f == Fill(onHand, line, alreadyUsed, |line.units|)
  {
    var splits, used, need := [], alreadyUsed, line.picked - line.issued;
    for i := 0 to |line.units|
      invariant Filling(splits, used, need) == Fill(onHand, line, alreadyUsed, i)
    {
      if need > 0.0 {
        var spot := SpotOf(line, line.units[i]);
        var free := At(onHand, spot) - At(used, spot);
        if free > 0.0 {
          var take := Min(need, free);
          splits, used, need := splits + [Split(line.units[i], take)], used[spot := At(used, spot) + take], need - take;
        }
      }
    }
    f := Filling(splits, used, need);
  }

  // ---------------------------------------------------------------- posting and reversing

  datatype Position = Position(unit: string, bin: string, item: string, batch: string, serial: string,
      stockType: string)

  datatype UnitStatus = Loaded | Shipped | Staged | OtherStatus

  datatype Unit = Unit(status: UnitStatus, bin: string)

  datatype Row = Row(unit: string, item: string, batch: string, serial: string, stockType: string, quantity: real,
      line: string)

  /** The idempotency key of a ledger entry. */
  datatype EntryKey = EntryKey(reversal: bool, doc: string, row: nat)

  datatype Entry = Entry(position: Position, quantity: real)

  datatype DocStatus = Unposted | Posted | Reversed

  datatype State = State(units: map<string, Unit>, stock: map<Position, real>, ledger: map<EntryKey, Entry>,
      issued: map<string, real>, docs: map<string, DocStatus>)

  datatype Settings = Settings(doors: set<string>, needSerial: set<string>, allowNegative: bool)

  function StockAt(s: State, p: Position): real { if p in s.stock then s.stock[p] else 0.0 }

  function IssuedOf(s: State, line: string): real { if line in s.issued then s.issued[line] else 0.0 }

  function PositionOf(row: Row, bin: string): Position {
    Position(row.unit, bin, row.item, row.batch, row.serial, row.stockType)
  }

  /** An entry whose key is there already is not posted again. */
  function PostEntry(settings: Settings, s: State, key: EntryKey, entry: Entry): Option<State> {
    var quantity := StockAt(s, entry.position) + entry.quantity;
    if key in s.ledger then Some(s)
    else if quantity < 0.0 && !settings.allowNegative then None
    else Some(s.(stock := s.stock[entry.position := quantity], ledger := s.ledger[key := entry]))
  }

  predicate MayIssue(settings: Settings, s: State, row: Row) {
    row.unit in s.units && s.units[row.unit].status == Loaded && s.units[row.unit].bin in settings.doors &&
        (row.item in settings.needSerial ==> row.serial != "")
  }

  function AddIssued(s: State, line: string, quantity: real): State {
    if line == "" then s else s.(issued := s.issued[line := IssuedOf(s, line) + quantity])
  }

  function PostRow(settings: Settings, s: State, doc: string, i: nat, row: Row): Option<State> {
    if !MayIssue(settings, s, row) then None
    else
      match PostEntry(settings, s, EntryKey(false, doc, i),
          Entry(PositionOf(row, s.units[row.unit].bin), -row.quantity))
      case None => None
      case Some(next) => Some(AddIssued(next, row.line, row.quantity))
  }

  function PostRows(settings: Settings, s: State, doc: string, rows: seq<Row>): Option<State> {
    var n := |rows| - 1;
    if |rows| == 0 then Some(s)
    else match PostRows(settings, s, doc, rows[..n]) case None => None
        case Some(before) => PostRow(settings, before, doc, n, rows[n])
  }

  function UnitsOf(rows: seq<Row>): set<string> { set i | 0 <= i < |rows| :: rows[i].unit }

  function SetStatus(units: map<string, Unit>, names: set<string>, status: UnitStatus): map<string, Unit> {
    map u | u in units :: if u in names then units[u].(status := status) else units[u]
  }

  predicate HasEntries(s: State, doc: string) { exists key <- s.ledger.Keys :: key.doc == doc }

  /** A document that has ledger entries is not posted again. */
  function Post(settings: Settings, s: State, doc: string, rows: seq<Row>): Option<State> {
    if HasEntries(s, doc) then Some(s)
    else
      match PostRows(settings, s, doc, rows)
      case None => None
      case Some(next) =>
        Some(next.(units := SetStatus(next.units, UnitsOf(rows), Shipped), docs := next.docs[doc := Posted]))
  }

  /** Every original entry is posted back. */
  function ReturnRows(settings: Settings, s: State, doc: string, n: nat): Option<State> {
    if n == 0 then Some(s)
    else
      match ReturnRows(settings, s, doc, n - 1)
      case None => None
      case Some(before) =>
        var key := EntryKey(false, doc, n - 1);
        if key !in before.ledger then Some(before)
        else PostEntry(settings, before, EntryKey(true, doc, n - 1),
            before.ledger[key].(quantity := -before.ledger[key].quantity))
  }

  function TakeBackIssued(s: State, rows: seq<Row>): State {
    var n := |rows| - 1;
    if |rows| == 0 then s
    else
      var before := TakeBackIssued(s, rows[..n]);
      if rows[n].line == "" then before
      else before.(issued := before.issued[rows[n].line := Max(IssuedOf(before, rows[n].line) - rows[n].quantity, 0.0)])
  }

  function OriginalUnits(s: State, doc: string): set<string> {
    set key | key in s.ledger && key.doc == doc && !key.reversal :: s.ledger[key].position.unit
  }

  function Reverse(settings: Settings, s: State, doc: string, rows: seq<Row>): Option<State> {
    if OriginalUnits(s, doc) == {} then Some(s)
    else
      match ReturnRows(settings, s, doc, |rows|)
      case None => None
      case Some(back) =>
        var next := TakeBackIssued(back, rows);
        Some(next.(units := SetStatus(next.units, OriginalUnits(s, doc), Staged), docs := next.docs[doc := Reversed]))
  }

  class IssueService {
    const settings: Settings
    var state: State

    constructor (settings: Settings, state: State)
      ensures this.settings == settings && this.state == state
    {
      this.settings, this.state := settings, state;
    }

    method PostGoodsIssue(doc: string, rows: seq<Row>) returns (ok: bool)
      modifies this
      ensures ok == Post(settings, old(state), doc, rows).Some?
      ensures state == Post(settings, old(state), doc, rows).GetOr(old(state))
    {
      if HasEntries(state, doc) { return true; }
      var next, shipped := state, {};
      for i := 0 to |rows|
        invariant PostRows(settings, state, doc, rows[..i]) == Some(next) && shipped == UnitsOf(rows[..i])
        invariant state == old(state)
      {
        assert rows[..i + 1][..i] == rows[..i];
        var posted := PostRow(settings, next, doc, i, rows[i]);
        if posted.None? {
          PostingRefused(settings, state, doc, rows, i + 1);
          return false;
        }
        OneMoreUnit(rows, i);
        next := posted.value;
        shipped := shipped + {rows[i].unit};
      }
      assert rows[..|rows|] == rows;
      state := next.(units := SetStatus(next.units, shipped, Shipped), docs := next.docs[doc := Posted]);
      ok := true;
    }

    method ReverseGoodsIssue(doc: string, rows: seq<Row>) returns (ok: bool)
      modifies this
      ensures ok == Reverse(settings, old(state), doc, rows).Some?
      ensures state == Reverse(settings, old(state), doc, rows).GetOr(old(state))
    {
      var units := OriginalUnits(state, doc);
      if units == {} { return true; }
      var next := state;
      for i := 0 to |rows|
        invariant ReturnRows(settings, state, doc, i) == Some(next) && state == old(state)
      {
        var key := EntryKey(false, doc, i);
        if key in next.ledger {
          var back := PostEntry(settings, next, EntryKey(true, doc, i),
              next.ledger[key].(quantity := -next.ledger[key].quantity));
          if back.None? {
            ReturnRefused(settings, state, doc, i + 1, |rows|);
            return false;
          }
          next := back.value;
        }
      }
      ghost var returned := next;
      for i := 0 to |rows|
        invariant next == TakeBackIssued(returned, rows[..i]) && state == old(state)
      {
        assert rows[..i + 1][..i] == rows[..i];
        if rows[i].line != "" {
          next := next.(issued := next.issued[rows[i].line := Max(IssuedOf(next, rows[i].line) - rows[i].quantity,
              0.0)]);
        }
      }
      assert rows[..|rows|] == rows;
      state := next.(units := SetStatus(next.units, units, Staged), docs := next.docs[doc := Reversed]);
      ok := true;
    }
  }

  lemma OneMoreUnit(rows: seq<Row>, i: nat)
    requires i < |rows|
    ensures UnitsOf(rows[..i + 1]) == UnitsOf(rows[..i]) + {rows[i].unit}
  {
    assert rows[..i + 1] == rows[..i] + [rows[i]];
    assert rows[..i + 1][i].unit in UnitsOf(rows[..i + 1]);
    forall u | u in UnitsOf(rows[..i]) ensures u in UnitsOf(rows[..i + 1]) {
      var k :| 0 <= k < i && rows[..i][k].unit == u;
      assert rows[..i + 1][k].unit == u;
    }
  }

  lemma {:induction false} PostingRefused(settings: Settings, s: State, doc: string, rows: seq<Row>, i: nat)
    requires i <= |rows| && PostRows(settings, s, doc, rows[..i]).None?
    ensures PostRows(settings, s, doc, rows).None?
    decreases |rows| - i
  {
    if i == |rows| {
      assert rows[..i] == rows;
    } else {
      assert rows[..i + 1][..i] == rows[..i];
      PostingRefused(settings, s, doc, rows, i + 1);
    }
  }

  lemma {:induction false} ReturnRefused(settings: Settings, s: State, doc: string, i: nat, n: nat)
    requires i <= n && ReturnRows(settings, s, doc, i).None?
    ensures ReturnRows(settings, s, doc, n).None?
    decreases n - i
  {
    if i < n { ReturnRefused(settings, s, doc, i + 1, n); }
  }
}
