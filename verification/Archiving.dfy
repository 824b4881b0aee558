/** Ledger archiving: entries before a cutoff leave the ledger, and one carry-forward for each position stays. */
module Archiving {
  import opened Basics
  import opened Sums
  import opened Sorting

  /** A stock position as the archive tells positions apart. */
  datatype Key = Key(warehouse: string, product: string, batch: string, serial: string, unit: string, bin: string,
      stockType: string)

  /** Times are in microseconds; `owner` stands for the three owner dimensions. */
  datatype Entry = Entry(key: Key, owner: string, time: int, creation: int, quantity: real, uom: string,
      movement: string, reference: string)

  /** What the archive file keeps of an entry: everything but the owner. */
  datatype Line = Line(key: Key, time: int, creation: int, quantity: real, uom: string, movement: string,
      reference: string)

  const CARRY_FORWARD: string := "999"

  const SECOND: int := 1000000

  function LineOf(e: Entry): Line { Line(e.key, e.time, e.creation, e.quantity, e.uom, e.movement, e.reference) }

  function Erased(entries: seq<Entry>): (r: seq<Line>)
    ensures |r| == |entries|
  {
    seq(|entries|, i requires 0 <= i < |entries| => LineOf(entries[i]))
  }

  function Due(warehouse: string, cutoff: int): Entry -> bool {
    (e: Entry) => e.key.warehouse == warehouse && e.time < cutoff
  }

  function Stays(warehouse: string, cutoff: int): Entry -> bool {
    (e: Entry) => !(e.key.warehouse == warehouse && e.time < cutoff)
  }

  function ByTime(): (Entry, Entry) -> bool {
    (a: Entry, b: Entry) => a.time < b.time || (a.time == b.time && a.creation <= b.creation)
  }

  /** The entries a run takes out of a warehouse, oldest first. */
  function DueRows(ledger: seq<Entry>, warehouse: string, cutoff: int): seq<Entry> {
    SortBy(Filter(ledger, Due(warehouse, cutoff)), ByTime())
  }

  /** `keys` are the keys of `totals` in the order they turned up. */
  datatype Tally = Tally(keys: seq<Key>, totals: map<Key, real>, firstIn: map<Key, int>, uom: map<Key, string>)

  function Count(t: Tally, e: Entry): Tally {
    var k := e.key;
    Tally(
      if k in t.totals then t.keys else t.keys + [k],
      t.totals[k := (if k in t.totals then t.totals[k] else 0.0) + e.quantity],
      if e.quantity > 0.0 && k !in t.firstIn then t.firstIn[k := e.time] else t.firstIn,
      t.uom[k := e.uom])
  }

  function TallyOf(rows: seq<Entry>): Tally {
    if |rows| == 0 then Tally([], map[], map[], map[]) else Count(TallyOf(rows[..|rows| - 1]), rows[|rows| - 1])
  }

  function Carry(t: Tally, k: Key, cutoff: int, run: string, now: int): Entry
    requires k in t.totals && k in t.uom
  {
    Entry(k, "", if k in t.firstIn then t.firstIn[k]
        else cutoff - SECOND, now, t.totals[k], t.uom[k], CARRY_FORWARD, run)
  }

  ghost predicate Counted(t: Tally) { forall k <- t.keys :: k in t.totals && k in t.uom }

  function Carries(t: Tally, keys: seq<Key>, cutoff: int, run: string, now: int): (r: seq<Entry>)
    requires forall k <- keys :: k in t.totals && k in t.uom
  {
    var n := |keys| - 1;
    if |keys| == 0 then []
    else
      var k := keys[n];
      Carries(t, keys[..n], cutoff, run, now) + if t.totals[k] == 0.0 then [] else [Carry(t, k, cutoff, run, now)]
  }

  lemma {:induction false} TallyIsCounted(rows: seq<Entry>)
    ensures Counted(TallyOf(rows))
    ensures forall k :: k in TallyOf(rows).totals <==> k in TallyOf(rows).keys
  {
    if |rows| != 0 { TallyIsCounted(rows[..|rows| - 1]); }
  }

  function CarryForwards(rows: seq<Entry>, cutoff: int, run: string, now: int): seq<Entry> {
    var t := TallyOf(rows);
    TallyIsCounted(rows);
    Carries(t, t.keys, cutoff, run, now)
  }

  datatype Archive = Archive(ledger: seq<Entry>, lines: seq<Line>, carried: seq<Entry>)

  /** One warehouse: its old entries become lines of the file, and its positions are carried forward. */
  function ArchiveWarehouse(a: Archive, warehouse: string, cutoff: int, run: string, now: int): Archive {
    var rows := DueRows(a.ledger, warehouse, cutoff);
    var carries := CarryForwards(rows, cutoff, run, now);
    Archive(Filter(a.ledger, Stays(warehouse, cutoff)) + carries, a.lines + Erased(rows), a.carried + carries)
  }

  function ArchiveAll(a: Archive, warehouses: seq<string>, cutoff: int, run: string, now: int): Archive {
    var n := |warehouses| - 1;
    if |warehouses| == 0 then a else ArchiveWarehouse(ArchiveAll(a, warehouses[..n], cutoff, run, now), warehouses[n],
        cutoff, run, now)
  }

  // ---------------------------------------------------------------- archive runs

  datatype Status = Queued | Running | Completed | Failed

  /** No warehouse is all of them. */
  datatype Run = Run(name: string, cutoff: int, warehouse: string, status: Status)

  datatype System = System(ledger: seq<Entry>, archived: seq<Line>, runs: seq<Run>)

  function WarehousesOf(run: Run, warehouses: seq<string>): seq<string> {
    if run.warehouse != "" then [run.warehouse] else warehouses
  }

  /** A run that fails leaves the ledger alone and may be started again. */
  function ExecuteRun(s: System, i: nat, warehouses: seq<string>, now: int, fails: bool): System
    requires i < |s.runs|
  {
    var run := s.runs[i];
    if run.status != Queued && run.status != Failed then s
    else if fails then s.(runs := s.runs[i := run.(status := Failed)])
    else
      var a := ArchiveAll(Archive(s.ledger, [], []), WarehousesOf(run, warehouses), run.cutoff, run.name, now);
      System(a.ledger, s.archived + a.lines, s.runs[i := run.(status := Completed)])
  }

  predicate Covers(run: Run, warehouse: string) {
    run.status == Completed && (run.warehouse == warehouse || run.warehouse == "")
  }

  /** The newest cutoff of the completed runs over a warehouse. */
  function LatestCutoff(runs: seq<Run>, warehouse: string): (r: Option<int>) {
    var n := |runs| - 1;
    if |runs| == 0 then None
    else
      var before := LatestCutoff(runs[..n], warehouse);
      if !Covers(runs[n], warehouse) then before
      else if before.None? || runs[n].cutoff > before.value then Some(runs[n].cutoff)
      else before
  }

  /** A document may be reversed unless it was posted before the cutoff. */
  predicate IsReversible(runs: seq<Run>, warehouse: string, posted: int) {
    LatestCutoff(runs, warehouse).None? || posted >= LatestCutoff(runs, warehouse).value
  }

  // ---------------------------------------------------------------- in place

  class LedgerArchive {
    var ledger: seq<Entry>
    var archived: seq<Line>
    var runs: seq<Run>

    function Current(): System
      reads this
    {
      System(ledger, archived, runs)
    }

    constructor (ledger: seq<Entry>, runs: seq<Run>)
      ensures Current() == System(ledger, [], runs)
    {
      this.ledger, this.archived, this.runs := ledger, [], runs;
    }

    method Execute(i: nat, warehouses: seq<string>, now: int, fails: bool)
      requires i < |runs|
      modifies this
      ensures Current() == ExecuteRun(old(Current()), i, warehouses, now, fails)
    {
      var run := runs[i];
      if run.status != Queued && run.status != Failed { return; }
      if fails {
        runs := runs[i := run.(status := Failed)];
        return;
      }
      var ws := WarehousesOf(run, warehouses);
      var lines, current := [], ledger;
      ghost var carried := [];
      for w := 0 to |ws|
        invariant Archive(current, lines, carried) ==
            ArchiveAll(Archive(ledger, [], []), ws[..w], run.cutoff, run.name, now)
        invariant Current() == old(Current())
      {
        assert ws[..w + 1][..w] == ws[..w];
        var rows := DueRows(current, ws[w], run.cutoff);
        var carries := CarryRows(rows, run.cutoff, run.name, now);
        lines, current := lines + Erased(rows), Filter(current, Stays(ws[w], run.cutoff)) + carries;
        carried := carried + carries;
      }
      assert ws[..|ws|] == ws;
      ledger, archived, runs := current, archived + lines, runs[i := run.(status := Completed)];
    }

    method CarryRows(rows: seq<Entry>, cutoff: int, run: string, now: int) returns (carries: seq<Entry>)
      ensures carries == CarryForwards(rows, cutoff, run, now)
    {
      var keys: seq<Key>, totals: map<Key, real> := [], map[];
      var firstIn: map<Key, int>, uom: map<Key, string> := map[], map[];
      for i := 0 to |rows|
        invariant Tally(keys, totals, firstIn, uom) == TallyOf(rows[..i])
      {
        assert rows[..i + 1][..i] == rows[..i];
        var e := rows[i];
        if e.key !in totals { keys, totals := keys + [e.key], totals[e.key := 0.0]; }
        totals := totals[e.key := totals[e.key] + e.quantity];
        uom := uom[e.key := e.uom];
        if e.quantity > 0.0 && e.key !in firstIn { firstIn := firstIn[e.key := e.time]; }
      }
      assert rows[..|rows|] == rows;
      TallyIsCounted(rows);
      carries := [];
      for j := 0 to |keys|
        invariant carries == Carries(TallyOf(rows), keys[..j], cutoff, run, now)
      {
        assert keys[..j + 1][..j] == keys[..j];
        if totals[keys[j]] != 0.0 {
          carries := carries + [Entry(keys[j], "", if keys[j] in firstIn then firstIn[keys[j]]
              else cutoff - SECOND, now, totals[keys[j]], uom[keys[j]], CARRY_FORWARD, run)];
        }
      }
      assert keys[..|keys|] == keys;
    }
  }
}
