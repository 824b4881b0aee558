/** What a finished archive run leaves in the ledger and in the file, told from the ledger before it. */
module ArchivingEffects {
  import opened Basics
  import opened Sums
  import opened Sorting
  import opened Archiving
  import opened ArchivingProofs

  /** Old enough to be archived, in one of the warehouses. */
  function IsOut(ws: seq<string>, cutoff: int): Entry -> bool {
    (e: Entry) => e.key.warehouse in ws && e.time < cutoff
  }

  function IsIn(ws: seq<string>, cutoff: int): Entry -> bool {
    (e: Entry) => e.key.warehouse !in ws || e.time >= cutoff
  }

  predicate IsOldOf(e: Entry, k: Key, cutoff: int) { e.key == k && e.time < cutoff }

  function OldQty(k: Key, cutoff: int): Entry -> real {
    (e: Entry) => if IsOldOf(e, k, cutoff) then e.quantity else 0.0
  }

  /** The old stock of a position. */
  function OldTotal(ledger: seq<Entry>, k: Key, cutoff: int): real { Sum(ledger, OldQty(k, cutoff)) }

  /** Dated at the position's first old receipt, else a second before the cutoff. */
  ghost predicate IsDated(ledger: seq<Entry>, k: Key, cutoff: int, time: int) {
    if exists e <- ledger :: IsOldOf(e, k, cutoff) && e.quantity > 0.0
    then (exists e <- ledger :: IsOldOf(e, k, cutoff) && e.quantity > 0.0 && e.time == time) &&
      forall e <- ledger :: IsOldOf(e, k, cutoff) && e.quantity > 0.0 ==> time <= e.time
    else time == cutoff - 1000000
  }

  /** The unit of measure of the position's last old entry. */
  ghost predicate IsMeasuredIn(ledger: seq<Entry>, k: Key, cutoff: int, uom: string) {
    exists e <- ledger :: IsOldOf(e, k, cutoff) && e.uom == uom && forall x <- ledger :: IsOldOf(x, k, cutoff) ==>
      x.time < e.time || (x.time == e.time && x.creation <= e.creation)
  }

  /** The entry stands for all of a position's old stock. */
  ghost predicate StandsFor(ledger: seq<Entry>, c: Entry, cutoff: int, run: string, now: int) {
    && c.owner == "" && c.creation == now && c.movement == "999" && c.reference == run
    && c.quantity == OldTotal(ledger, c.key, cutoff) != 0.0
    && IsDated(ledger, c.key, cutoff, c.time) && IsMeasuredIn(ledger, c.key, cutoff, c.uom)
  }

  ghost predicate HasCarry(carried: seq<Entry>, k: Key) { exists c <- carried :: c.key == k }

  /** One entry for each position of the warehouses with old stock, and no other. */
  ghost predicate CarriedExactly(ledger: seq<Entry>, carried: seq<Entry>, ws: seq<string>, cutoff: int, run: string,
        now: int)
  {
    && (forall c <- carried :: c.key.warehouse in ws && StandsFor(ledger, c, cutoff, run, now))
    && AreBalances(carried)
    && (forall k: Key :: k.warehouse in ws && OldTotal(ledger, k, cutoff) != 0.0 ==> HasCarry(carried, k))
  }

  // ---------------------------------------------------------------- the tally

  /** No row of the position comes after this one. */
  ghost predicate IsLast(rows: seq<Entry>, k: Key, e: Entry) {
    e in rows && e.key == k && forall x <- rows :: x.key == k ==> ByTime()(x, e)
  }

  lemma {:induction false} TallyUom(rows: seq<Entry>, k: Key)
    requires Sorted(rows, ByTime()) && k in TallyOf(rows).uom
    ensures exists e :: IsLast(rows, k, e) && e.uom == TallyOf(rows).uom[k]
  {
    if |rows| > 0 {
      var n := |rows| - 1;
      if rows[n].key == k {
        forall x | x in rows && x.key == k ensures ByTime()(x, rows[n]) {
          var i :| 0 <= i < |rows| && rows[i] == x;
        }
        assert IsLast(rows, k, rows[n]);
      } else {
        TallyUom(rows[..n], k);
        var e :| IsLast(rows[..n], k, e) && e.uom == TallyOf(rows[..n]).uom[k];
        forall x | x in rows && x.key == k ensures ByTime()(x, e) { assert x in rows[..n]; }
        assert IsLast(rows, k, e);
      }
    }
  }

  // ---------------------------------------------------------------- one warehouse

  /** The rows are the old entries of the warehouse. */
  ghost predicate AreOld(ledger: seq<Entry>, rows: seq<Entry>, w: string, cutoff: int) {
    && Sorted(rows, ByTime())
    && (forall e :: e in rows <==> e in ledger && e.key.warehouse == w && e.time < cutoff)
    && (forall k: Key :: k.warehouse == w ==> TotalAt(rows, k) == OldTotal(ledger, k, cutoff))
  }

  lemma OldTotalIs(ledger: seq<Entry>, w: string, cutoff: int, k: Key)
    requires k.warehouse == w
    ensures TotalAt(DueRows(ledger, w, cutoff), k) == OldTotal(ledger, k, cutoff)
  {
    var due := Filter(ledger, Due(w, cutoff));
    SortPermutes(due, ByTime());
    SumPermutation(due, DueRows(ledger, w, cutoff), QtyOf(k));
    SumFiltered(ledger, Due(w, cutoff), QtyOf(k), OldQty(k, cutoff));
  }

  lemma DueAreOld(ledger: seq<Entry>, w: string, cutoff: int)
    ensures AreOld(ledger, DueRows(ledger, w, cutoff), w, cutoff)
  {
    DueRowsAreDue(ledger, w, cutoff);
    DueRowsAreSorted(ledger, w, cutoff);
    forall k: Key | k.warehouse == w ensures TotalAt(DueRows(ledger, w, cutoff), k) == OldTotal(ledger, k, cutoff) {
      OldTotalIs(ledger, w, cutoff, k);
    }
  }

  lemma CarryIsDated(ledger: seq<Entry>, rows: seq<Entry>, w: string, cutoff: int, k: Key, time: int)
    requires AreOld(ledger, rows, w, cutoff) && k.warehouse == w
    requires time == if k in TallyOf(rows).firstIn then TallyOf(rows).firstIn[k] else cutoff - SECOND
    ensures IsDated(ledger, k, cutoff, time)
  {
    FirstInIsFirst(rows, k);
    FirstReceiptIsFirst(rows, k);
    if FirstReceipt(rows, k).Some? {
      var e :| e in rows && IsReceipt(e, k) && e.time == time;
      assert e in ledger && IsOldOf(e, k, cutoff);
      forall x | x in ledger && IsOldOf(x, k, cutoff) && x.quantity > 0.0 ensures time <= x.time {
        assert x in rows && IsReceipt(x, k);
      }
    } else {
      forall x | x in ledger && IsOldOf(x, k, cutoff) ensures x.quantity <= 0.0 {
        assert x in rows && !IsReceipt(x, k);
      }
    }
  }

  lemma CarryIsMeasured(ledger: seq<Entry>, rows: seq<Entry>, w: string, cutoff: int, k: Key)
    requires AreOld(ledger, rows, w, cutoff) && k.warehouse == w && k in TallyOf(rows).uom
    ensures IsMeasuredIn(ledger, k, cutoff, TallyOf(rows).uom[k])
  {
    TallyUom(rows, k);
    var e :| IsLast(rows, k, e) && e.uom == TallyOf(rows).uom[k];
    forall x | x in ledger && IsOldOf(x, k, cutoff)
      ensures x.time < e.time || (x.time == e.time && x.creation <= e.creation)
    {
      assert x in rows;
    }
  }

  lemma CarriesStandFor(ledger: seq<Entry>, rows: seq<Entry>, w: string, cutoff: int, run: string, now: int)
    requires AreOld(ledger, rows, w, cutoff)
    ensures CarriedExactly(ledger, CarryForwards(rows, cutoff, run, now), [w], cutoff, run, now)
  {
    var t, carries := TallyOf(rows), CarryForwards(rows, cutoff, run, now);
    TallyIsCounted(rows);
    TallyKeys(rows);
    CarriesAre(t, t.keys, cutoff, run, now);
    CarryForwardsAreBalances(rows, cutoff, run, now);
    forall c | c in carries ensures c.key.warehouse in [w] && StandsFor(ledger, c, cutoff, run, now) {
      var e :| e in rows && e.key == c.key;
      assert c == Carry(t, c.key, cutoff, run, now);
      TallyTotal(rows, c.key);
      CarryIsDated(ledger, rows, w, cutoff, c.key, c.time);
      CarryIsMeasured(ledger, rows, w, cutoff, c.key);
    }
    forall k: Key | k.warehouse in [w] && OldTotal(ledger, k, cutoff) != 0.0 ensures HasCarry(carries, k) {
      TallyTotal(rows, k);
      assert k in t.keys;
      assert Carry(t, k, cutoff, run, now) in carries;
    }
  }

  // ---------------------------------------------------------------- warehouse after warehouse

  /** What the ledger is after some warehouses: what is in still, and the carry-forwards. */
  ghost predicate ArchivedExactly(ledger: seq<Entry>, a: Archive, ws: seq<string>, cutoff: int, run: string, now: int) {
    a.ledger == Filter(ledger, IsIn(ws, cutoff)) + a.carried &&
        CarriedExactly(ledger, a.carried, ws, cutoff, run, now)
  }

  /** The old entries of a warehouse whose turn has not come are all still there. */
  lemma StillOld(ledger: seq<Entry>, a: Archive, ws: seq<string>, cutoff: int, run: string, now: int, w: string)
    requires ArchivedExactly(ledger, a, ws, cutoff, run, now) && w !in ws
    ensures AreOld(ledger, DueRows(a.ledger, w, cutoff), w, cutoff)
  {
    var rows := DueRows(a.ledger, w, cutoff);
    DueAreOld(a.ledger, w, cutoff);
    FilterMembers(ledger, IsIn(ws, cutoff));
    forall k: Key | k.warehouse == w ensures TotalAt(rows, k) == OldTotal(ledger, k, cutoff) {
      SumConcat(Filter(ledger, IsIn(ws, cutoff)), a.carried, OldQty(k, cutoff));
      SumFiltered(ledger, IsIn(ws, cutoff), OldQty(k, cutoff), OldQty(k, cutoff));
      forall i | 0 <= i < |a.carried| ensures OldQty(k, cutoff)(a.carried[i]) == 0.0 {
        assert a.carried[i] in a.carried;
      }
      SumAgree(a.carried, a.carried, OldQty(k, cutoff), Nothing());
      SumOfNothing(a.carried);
    }
  }

  lemma StaysAgain(ledger: seq<Entry>, a: Archive, ws: seq<string>, cutoff: int, run: string, now: int, w: string)
    requires ArchivedExactly(ledger, a, ws, cutoff, run, now) && w !in ws
    ensures Filter(a.ledger, Stays(w, cutoff)) == Filter(ledger, IsIn(ws + [w], cutoff)) + a.carried
  {
    var stays := Filter(ledger, IsIn(ws, cutoff));
    FilterConcat(stays, a.carried, Stays(w, cutoff));
    FilterBoth(ledger, IsIn(ws, cutoff), Stays(w, cutoff), IsIn(ws + [w], cutoff));
    FilterAll(a.carried, Stays(w, cutoff));
  }

  lemma {:induction false} FilterAll(s: seq<Entry>, keep: Entry -> bool)
    requires forall e <- s :: keep(e)
    ensures Filter(s, keep) == s
  {
    if |s| != 0 {
      assert s[0] in s && forall e <- s[1..] :: e in s;
      FilterAll(s[1..], keep);
    }
  }

  lemma CarriedBoth(ledger: seq<Entry>, a: seq<Entry>, b: seq<Entry>, ws: seq<string>, w: string, cutoff: int,
        run: string, now: int)
    requires CarriedExactly(ledger, a, ws, cutoff, run, now) && CarriedExactly(ledger, b, [w], cutoff, run, now)
    requires w !in ws
    ensures CarriedExactly(ledger, a + b, ws + [w], cutoff, run, now)
  {
    forall i, j | 0 <= i < j < |a + b| ensures (a + b)[i].key != (a + b)[j].key {
      if i < |a| { assert a[i] in a; }
      if j >= |a| { assert b[j - |a|] in b; }
    }
    forall k: Key | k.warehouse in ws + [w] && OldTotal(ledger, k, cutoff) != 0.0 ensures HasCarry(a + b, k) {
      if k.warehouse in ws { assert HasCarry(a, k); } else { assert HasCarry(b, k); }
    }
  }

  lemma NextWarehouse(ledger: seq<Entry>, a: Archive, ws: seq<string>, cutoff: int, run: string, now: int, w: string)
    requires ArchivedExactly(ledger, a, ws, cutoff, run, now) && w !in ws
    ensures ArchivedExactly(ledger, ArchiveWarehouse(a, w, cutoff, run, now), ws + [w], cutoff, run, now)
  {
    var rows := DueRows(a.ledger, w, cutoff);
    var carries := CarryForwards(rows, cutoff, run, now);
    StillOld(ledger, a, ws, cutoff, run, now, w);
    CarriesStandFor(ledger, rows, w, cutoff, run, now);
    CarriedBoth(ledger, a.carried, carries, ws, w, cutoff, run, now);
    StaysAgain(ledger, a, ws, cutoff, run, now, w);
    Grouping(Filter(ledger, IsIn(ws + [w], cutoff)), a.carried, carries);
  }

  lemma {:induction false} AllAreArchived(ledger: seq<Entry>, ws: seq<string>, cutoff: int, run: string, now: int)
    requires DistinctWarehouses(ws)
    ensures ArchivedExactly(ledger, ArchiveAll(Archive(ledger, [], []), ws, cutoff, run, now), ws, cutoff, run, now)
  {
    if |ws| == 0 {
      FilterAll(ledger, IsIn(ws, cutoff));
      assert ledger + [] == ledger;
    } else {
      var n := |ws| - 1;
      AllAreArchived(ledger, ws[..n], cutoff, run, now);
      NextWarehouse(ledger, ArchiveAll(Archive(ledger, [], []), ws[..n], cutoff, run, now), ws[..n], cutoff, run, now,
          ws[n]);
      assert ws[..n] + [ws[n]] == ws;
    }
  }

  // ---------------------------------------------------------------- a run

  /** The warehouses a run is about: its own, or all there are. */
  function Scope(run: Run, warehouses: seq<string>): seq<string> {
    if run.warehouse == "" then warehouses else [run.warehouse]
  }

  /** The file has exactly the entries that are out, and the ledger the others and one carry-forward for each position
      that had old stock. */
  ghost predicate RunArchives(s: System, t: System, run: Run, ws: seq<string>, now: int) {
    && s.archived <= t.archived
    && Filter(s.ledger, IsIn(ws, run.cutoff)) <= t.ledger
    && var carried := t.ledger[|Filter(s.ledger, IsIn(ws, run.cutoff))|..];
      && CarriedExactly(s.ledger, carried, ws, run.cutoff, run.name, now)
      && multiset(t.archived[|s.archived|..]) == multiset(Erased(Filter(s.ledger, IsOut(ws, run.cutoff))))
  }

  lemma OutAndIn(ledger: seq<Entry>, ws: seq<string>, cutoff: int)
    ensures multiset(Erased(Filter(ledger, IsOut(ws, cutoff)))) + multiset(Erased(Filter(ledger, IsIn(ws, cutoff)))) ==
        multiset(Erased(ledger))
  {
    var outs, ins := Filter(ledger, IsOut(ws, cutoff)), Filter(ledger, IsIn(ws, cutoff));
    ErasedConcat(outs, ins);
    forall e: Entry ensures multiset(outs + ins)[e] == multiset(ledger)[e] {
      FilterCounts(ledger, IsOut(ws, cutoff), e);
      FilterCounts(ledger, IsIn(ws, cutoff), e);
    }
    assert multiset(outs + ins) == multiset(ledger);
    ErasedBag(outs + ins);
    ErasedBag(ledger);
    BagSumPermutation(outs + ins, ledger, AsBag());
  }

  lemma SameRest(lines: multiset<Line>, outs: multiset<Line>, ins: multiset<Line>, carried: multiset<Line>)
    requires lines + (ins + carried) == outs + ins + carried
    ensures lines == outs
  {
    forall l: Line ensures lines[l] == outs[l] {
      assert (lines + (ins + carried))[l] == lines[l] + ins[l] + carried[l];
      assert (outs + ins + carried)[l] == outs[l] + ins[l] + carried[l];
    }
  }

  lemma LinesAreOut(ledger: seq<Entry>, a: Archive, ws: seq<string>, cutoff: int, run: string, now: int)
    requires Faithful(ledger, a) && ArchivedExactly(ledger, a, ws, cutoff, run, now)
    ensures multiset(a.lines) == multiset(Erased(Filter(ledger, IsOut(ws, cutoff))))
  {
    var outs, ins := Filter(ledger, IsOut(ws, cutoff)), Filter(ledger, IsIn(ws, cutoff));
    OutAndIn(ledger, ws, cutoff);
    ErasedConcat(ins, a.carried);
    SameRest(multiset(a.lines), multiset(Erased(outs)), multiset(Erased(ins)), multiset(Erased(a.carried)));
  }

  /** A queued or failed run that does not fail archives exactly what is old in its warehouses and is completed; one
      that fails is failed and changes nothing else; any other is left alone. */
  lemma ExecuteArchivesExactly(s: System, i: nat, warehouses: seq<string>, now: int, fails: bool)
    requires i < |s.runs| && DistinctWarehouses(warehouses)
    ensures var run := s.runs[i]; var t := ExecuteRun(s, i, warehouses, now, fails);
      if run.status !in {Queued, Failed} then t == s
      else if fails then t == s.(runs := s.runs[i := run.(status := Failed)])
      else t.runs == s.runs[i := run.(status := Completed)] && RunArchives(s, t, run, Scope(run, warehouses), now)
  {
    var run := s.runs[i];
    if run.status in {Queued, Failed} && !fails {
      var ws := Scope(run, warehouses);
      var a := ArchiveAll(Archive(s.ledger, [], []), ws, run.cutoff, run.name, now);
      AllAreArchived(s.ledger, ws, run.cutoff, run.name, now);
      ArchivingIsFaithful(s.ledger, ws, run.cutoff, run.name, now);
      LinesAreOut(s.ledger, a, ws, run.cutoff, run.name, now);
      var ins := Filter(s.ledger, IsIn(ws, run.cutoff));
      Cut(ins, a.carried);
      Cut(s.archived, a.lines);
    }
  }

  // ---------------------------------------------------------------- the guard of reversals

  /** A document may be reversed if and only if it was not posted before the cutoff of a completed run over its
      warehouse. */
  lemma IsReversibleExactly(runs: seq<Run>, warehouse: string, posted: int)
    ensures IsReversible(runs, warehouse, posted) <==>
      !exists i :: 0 <= i < |runs| && runs[i].status == Completed && runs[i].warehouse in {"", warehouse} &&
          posted < runs[i].cutoff
  {
    forall i | 0 <= i < |runs| && Covers(runs[i], warehouse)
      ensures LatestCutoff(runs, warehouse).Some? && runs[i].cutoff <= LatestCutoff(runs, warehouse).value
    {
      LatestIsLatest(runs, warehouse, i);
    }
    if LatestCutoff(runs, warehouse).Some? {
      var i := LatestIsSome(runs, warehouse);
    }
  }
}
