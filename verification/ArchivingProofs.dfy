/** What archiving keeps: the totals, every line, and, exactly when it can, the first receipt. */
module ArchivingProofs {
  import opened Basics
  import opened Sums
  import opened Sorting
  import opened Archiving

  function QtyOf(k: Key): Entry -> real { (e: Entry) => if e.key == k then e.quantity else 0.0 }

  /** The ledger total of a position. */
  function TotalAt(ledger: seq<Entry>, k: Key): real { Sum(ledger, QtyOf(k)) }

  // ---------------------------------------------------------------- filters

  lemma Grouping<T>(a: seq<T>, b: seq<T>, c: seq<T>)
    ensures a + (b + c) == (a + b) + c
  {
  }

  lemma {:induction false} FilterConcat<T>(a: seq<T>, b: seq<T>, keep: T -> bool)
    ensures Filter(a + b, keep) == Filter(a, keep) + Filter(b, keep)
    decreases |a|
  {
    if |a| == 0 {
      assert a + b == b;
    } else {
      var first, rest := if keep(a[0]) then [a[0]] else [], a[1..];
      assert (a + b)[0] == a[0] && (a + b)[1..] == rest + b;
      FilterConcat(rest, b, keep);
      Grouping(first, Filter(rest, keep), Filter(b, keep));
    }
  }

  /** Filtering by the weaker condition first changes nothing. */
  lemma {:induction false} FilterTwice<T(!new)>(s: seq<T>, first: T -> bool, second: T -> bool)
    requires forall x <- s :: second(x) ==> first(x)
    ensures Filter(Filter(s, first), second) == Filter(s, second)
  {
    if |s| != 0 {
      assert s[0] in s && forall x <- s[1..] :: x in s;
      FilterTwice(s[1..], first, second);
      FilterConcat(if first(s[0]) then [s[0]] else [], Filter(s[1..], first), second);
    }
  }

  lemma {:induction false} FilterNone<T>(s: seq<T>, keep: T -> bool)
    requires forall x <- s :: !keep(x)
    ensures Filter(s, keep) == []
  {
    if |s| != 0 {
      assert s[0] in s && forall x <- s[1..] :: x in s;
      FilterNone(s[1..], keep);
    }
  }

  /** What is due and what stays make up the ledger. */
  lemma Partition(ledger: seq<Entry>, w: string, cutoff: int)
    ensures multiset(DueRows(ledger, w, cutoff)) + multiset(Filter(ledger, Stays(w, cutoff))) == multiset(ledger)
    ensures multiset(DueRows(ledger, w, cutoff) + Filter(ledger, Stays(w, cutoff))) == multiset(ledger)
  {
    var due, stays := Filter(ledger, Due(w, cutoff)), Filter(ledger, Stays(w, cutoff));
    SortPermutes(due, ByTime());
    forall e: Entry ensures (multiset(due) + multiset(stays))[e] == multiset(ledger)[e] {
      FilterCounts(ledger, Due(w, cutoff), e);
      FilterCounts(ledger, Stays(w, cutoff), e);
    }
  }

  lemma PartitionTotal(ledger: seq<Entry>, w: string, cutoff: int, f: Entry -> real)
    ensures Sum(ledger, f) == Sum(DueRows(ledger, w, cutoff), f) + Sum(Filter(ledger, Stays(w, cutoff)), f)
  {
    Partition(ledger, w, cutoff);
    SumPermutation(DueRows(ledger, w, cutoff) + Filter(ledger, Stays(w, cutoff)), ledger, f);
    SumConcat(DueRows(ledger, w, cutoff), Filter(ledger, Stays(w, cutoff)), f);
  }

  lemma SortMembers(s: seq<Entry>)
    ensures forall e :: e in SortBy(s, ByTime()) <==> e in s
  {
    SortPermutes(s, ByTime());
    forall e ensures e in SortBy(s, ByTime()) <==> e in s {
      assert multiset(SortBy(s, ByTime()))[e] == multiset(s)[e];
    }
  }

  lemma TimeOrders()
    ensures Preorder(ByTime())
  {
  }

  lemma DueRowsAreDue(ledger: seq<Entry>, w: string, cutoff: int)
    ensures forall e :: e in DueRows(ledger, w, cutoff) <==> e in ledger && Due(w, cutoff)(e)
  {
    SortMembers(Filter(ledger, Due(w, cutoff)));
    FilterMembers(ledger, Due(w, cutoff));
  }

  lemma DueRowsAreSorted(ledger: seq<Entry>, w: string, cutoff: int)
    ensures Sorted(DueRows(ledger, w, cutoff), ByTime())
  {
    TimeOrders();
    SortSorts(Filter(ledger, Due(w, cutoff)), ByTime());
  }

  // ---------------------------------------------------------------- the tally

  ghost predicate DistinctKeys(keys: seq<Key>) { forall i, j :: 0 <= i < j < |keys| ==> keys[i] != keys[j] }

  lemma {:induction false} TallyKeys(rows: seq<Entry>)
    ensures DistinctKeys(TallyOf(rows).keys)
    ensures forall k :: k in TallyOf(rows).keys <==> exists e :: e in rows && e.key == k
  {
    if |rows| != 0 {
      var n := |rows| - 1;
      TallyKeys(rows[..n]);
      TallyIsCounted(rows[..n]);
      assert rows == rows[..n] + [rows[n]];
      assert forall e :: e in rows <==> e in rows[..n] || e == rows[n];
    }
  }

  lemma {:induction false} TallyTotal(rows: seq<Entry>, k: Key)
    ensures (if k in TallyOf(rows).totals then TallyOf(rows).totals[k] else 0.0) == TotalAt(rows, k)
  {
    if |rows| != 0 { TallyTotal(rows[..|rows| - 1], k); }
  }

  lemma {:induction false} CarriesTotal(t: Tally, keys: seq<Key>, cutoff: int, run: string, now: int, k: Key)
    requires DistinctKeys(keys) && forall q <- keys :: q in t.totals && q in t.uom
    ensures TotalAt(Carries(t, keys, cutoff, run, now), k) == if k in keys then t.totals[k] else 0.0
  {
    if |keys| != 0 {
      var n := |keys| - 1;
      CarriesTotal(t, keys[..n], cutoff, run, now, k);
      var last := if t.totals[keys[n]] == 0.0 then [] else [Carry(t, keys[n], cutoff, run, now)];
      SumConcat(Carries(t, keys[..n], cutoff, run, now), last, QtyOf(k));
      assert keys == keys[..n] + [keys[n]];
    }
  }

  /** The carry-forwards add up to what they replace. */
  lemma CarryForwardsTotal(rows: seq<Entry>, cutoff: int, run: string, now: int, k: Key)
    ensures TotalAt(CarryForwards(rows, cutoff, run, now), k) == TotalAt(rows, k)
  {
    TallyIsCounted(rows);
    TallyKeys(rows);
    CarriesTotal(TallyOf(rows), TallyOf(rows).keys, cutoff, run, now, k);
    TallyTotal(rows, k);
  }

  // ---------------------------------------------------------------- totals

  lemma WarehouseKeepsTotals(a: Archive, w: string, cutoff: int, run: string, now: int, k: Key)
    ensures TotalAt(ArchiveWarehouse(a, w, cutoff, run, now).ledger, k) == TotalAt(a.ledger, k)
  {
    var rows := DueRows(a.ledger, w, cutoff);
    PartitionTotal(a.ledger, w, cutoff, QtyOf(k));
    CarryForwardsTotal(rows, cutoff, run, now, k);
    SumConcat(Filter(a.ledger, Stays(w, cutoff)), CarryForwards(rows, cutoff, run, now), QtyOf(k));
  }

  /** No position's ledger total moves. */
  lemma {:induction false} ArchivingKeepsTotals(a: Archive, ws: seq<string>, cutoff: int, run: string, now: int, k: Key)
    ensures TotalAt(ArchiveAll(a, ws, cutoff, run, now).ledger, k) == TotalAt(a.ledger, k)
  {
    if |ws| != 0 {
      var n := |ws| - 1;
      ArchivingKeepsTotals(a, ws[..n], cutoff, run, now, k);
      WarehouseKeepsTotals(ArchiveAll(a, ws[..n], cutoff, run, now), ws[n], cutoff, run, now, k);
    }
  }

  // ---------------------------------------------------------------- every line

  function AsBag(): Entry -> multiset<Line> { (e: Entry) => multiset{LineOf(e)} }

  lemma {:induction false} ErasedBag(entries: seq<Entry>)
    ensures multiset(Erased(entries)) == BagSum(entries, AsBag())
  {
    if |entries| != 0 {
      var n := |entries| - 1;
      ErasedBag(entries[..n]);
      assert Erased(entries) == Erased(entries[..n]) + [LineOf(entries[n])];
    }
  }

  lemma ErasedConcat(a: seq<Entry>, b: seq<Entry>)
    ensures multiset(Erased(a + b)) == multiset(Erased(a)) + multiset(Erased(b))
  {
    assert Erased(a + b) == Erased(a) + Erased(b);
  }

  lemma WarehouseIsFaithful(a: Archive, w: string, cutoff: int, run: string, now: int)
    ensures var b := ArchiveWarehouse(a, w, cutoff, run, now);
      multiset(b.lines) + multiset(Erased(b.ledger)) + multiset(Erased(a.carried)) ==
          multiset(a.lines) + multiset(Erased(a.ledger)) + multiset(Erased(b.carried))
  {
    var rows, stays := DueRows(a.ledger, w, cutoff), Filter(a.ledger, Stays(w, cutoff));
    var carries := CarryForwards(rows, cutoff, run, now);
    Partition(a.ledger, w, cutoff);
    ErasedBag(a.ledger);
    ErasedBag(rows + stays);
    BagSumPermutation(rows + stays, a.ledger, AsBag());
    ErasedConcat(rows, stays);
    ErasedConcat(stays, carries);
    ErasedConcat(a.carried, carries);
  }

  /** The file's lines and the ledger, less the carry-forwards, are the ledger that was. */
  ghost predicate Faithful(ledger: seq<Entry>, a: Archive) {
    multiset(a.lines) + multiset(Erased(a.ledger)) == multiset(Erased(ledger)) + multiset(Erased(a.carried))
  }

  lemma Cancels(lines: multiset<Line>, rest: multiset<Line>, carried: multiset<Line>, lines2: multiset<Line>,
        rest2: multiset<Line>, carried2: multiset<Line>, all: multiset<Line>)
    requires lines + rest == all + carried
    requires lines2 + rest2 + carried == lines + rest + carried2
    ensures lines2 + rest2 == all + carried2
  {
    forall l: Line ensures (lines2 + rest2)[l] == (all + carried2)[l] {
      assert (lines + rest)[l] == (all + carried)[l];
      assert (lines2 + rest2 + carried)[l] == (lines + rest + carried2)[l];
    }
  }

  lemma WarehouseStaysFaithful(ledger: seq<Entry>, a: Archive, w: string, cutoff: int, run: string, now: int)
    requires Faithful(ledger, a)
    ensures Faithful(ledger, ArchiveWarehouse(a, w, cutoff, run, now))
  {
    var b := ArchiveWarehouse(a, w, cutoff, run, now);
    WarehouseIsFaithful(a, w, cutoff, run, now);
    Cancels(multiset(a.lines), multiset(Erased(a.ledger)), multiset(Erased(a.carried)),
      multiset(b.lines), multiset(Erased(b.ledger)), multiset(Erased(b.carried)), multiset(Erased(ledger)));
  }

  lemma {:induction false} ArchivingIsFaithful(ledger: seq<Entry>, ws: seq<string>, cutoff: int, run: string, now: int)
    ensures Faithful(ledger, ArchiveAll(Archive(ledger, [], []), ws, cutoff, run, now))
  {
    if |ws| == 0 {
      assert Erased([]) == [];
    } else {
      var n := |ws| - 1;
      ArchivingIsFaithful(ledger, ws[..n], cutoff, run, now);
      WarehouseStaysFaithful(ledger, ArchiveAll(Archive(ledger, [], []), ws[..n], cutoff, run, now), ws[n], cutoff, run,
          now);
    }
  }

  // ---------------------------------------------------------------- first receipts

  function Earlier(a: Option<int>, b: Option<int>): Option<int> {
    if a.None? then b else if b.None? then a else if a.value <= b.value then a else b
  }

  predicate IsReceipt(e: Entry, k: Key) { e.key == k && e.quantity > 0.0 }

  /** When the position first received stock, as a rebuild of the balances reads it from the ledger. */
  function FirstReceipt(ledger: seq<Entry>, k: Key): Option<int> {
    var n := |ledger| - 1;
    if |ledger| == 0 then None else Earlier(FirstReceipt(ledger[..n], k),
        if IsReceipt(ledger[n], k) then Some(ledger[n].time) else None)
  }

  ghost predicate IsFirst(ledger: seq<Entry>, k: Key, t: Option<int>) {
    match t
    case None => forall e <- ledger :: !IsReceipt(e, k)
    case Some(time) =>
      (exists e <- ledger :: IsReceipt(e, k) && e.time == time) && forall e <- ledger :: IsReceipt(e, k) ==>
          time <= e.time
  }

  lemma {:induction false} FirstReceiptIsFirst(ledger: seq<Entry>, k: Key)
    ensures IsFirst(ledger, k, FirstReceipt(ledger, k))
  {
    if |ledger| != 0 {
      var n := |ledger| - 1;
      FirstReceiptIsFirst(ledger[..n], k);
      assert ledger == ledger[..n] + [ledger[n]];
      assert forall e :: e in ledger <==> e in ledger[..n] || e == ledger[n];
    }
  }

  lemma FirstIsUnique(ledger: seq<Entry>, k: Key, t: Option<int>)
    requires IsFirst(ledger, k, t)
    ensures FirstReceipt(ledger, k) == t
  {
    FirstReceiptIsFirst(ledger, k);
  }

  lemma FirstOfBoth(a: seq<Entry>, b: seq<Entry>, ledger: seq<Entry>, k: Key)
    requires forall e :: e in ledger <==> e in a || e in b
    ensures FirstReceipt(ledger, k) == Earlier(FirstReceipt(a, k), FirstReceipt(b, k))
  {
    FirstReceiptIsFirst(a, k);
    FirstReceiptIsFirst(b, k);
    FirstIsUnique(ledger, k, Earlier(FirstReceipt(a, k), FirstReceipt(b, k)));
  }

  /** The loop's first positive entry is the earliest one, because the rows come in time order. */
  lemma {:induction false} FirstInIsFirst(rows: seq<Entry>, k: Key)
    requires Sorted(rows, ByTime())
    ensures (if k in TallyOf(rows).firstIn then Some(TallyOf(rows).firstIn[k]) else None) == FirstReceipt(rows, k)
  {
    if |rows| != 0 {
      var n := |rows| - 1;
      FirstInIsFirst(rows[..n], k);
      FirstReceiptIsFirst(rows[..n], k);
      forall e | e in rows[..n] ensures e.time <= rows[n].time {
        var i :| 0 <= i < n && rows[..n][i] == e;
        assert ByTime()(rows[i], rows[n]);
      }
    }
  }

  lemma {:induction false} CarriesAre(t: Tally, keys: seq<Key>, cutoff: int, run: string, now: int)
    requires forall q <- keys :: q in t.totals && q in t.uom
    ensures forall e <- Carries(t, keys, cutoff, run, now) ::
        e.key in keys && t.totals[e.key] != 0.0 && e == Carry(t, e.key, cutoff, run, now)
    ensures forall k <- keys ::
        t.totals[k] != 0.0 ==> Carry(t, k, cutoff, run, now) in Carries(t, keys, cutoff, run, now)
  {
    if |keys| != 0 {
      var n := |keys| - 1;
      CarriesAre(t, keys[..n], cutoff, run, now);
      assert keys == keys[..n] + [keys[n]];
      assert forall k :: k in keys <==> k in keys[..n] || k == keys[n];
    }
  }

  /** A position's carry-forward is a receipt exactly when its archived total is positive, and then it is dated at the
      first one. */
  lemma CarryForwardFirst(rows: seq<Entry>, cutoff: int, run: string, now: int, k: Key)
    requires Sorted(rows, ByTime())
    ensures FirstReceipt(CarryForwards(rows, cutoff, run, now), k) ==
        if TotalAt(rows, k) > 0.0 then FirstReceipt(rows, k) else None
    ensures TotalAt(rows, k) > 0.0 ==> FirstReceipt(rows, k).Some?
  {
    var t := TallyOf(rows);
    TallyIsCounted(rows);
    TallyTotal(rows, k);
    FirstInIsFirst(rows, k);
    CarriesAre(t, t.keys, cutoff, run, now);
    FirstReceiptIsFirst(rows, k);
    if TotalAt(rows, k) > 0.0 {
      if FirstReceipt(rows, k).None? { NoReceiptNoTotal(rows, k); }
      assert Carry(t, k, cutoff, run, now) in CarryForwards(rows, cutoff, run, now);
      FirstIsUnique(CarryForwards(rows, cutoff, run, now), k, FirstReceipt(rows, k));
    } else {
      FirstIsUnique(CarryForwards(rows, cutoff, run, now), k, None);
    }
  }

  lemma {:induction false} NoReceiptNoTotal(rows: seq<Entry>, k: Key)
    requires forall e <- rows :: !IsReceipt(e, k)
    ensures TotalAt(rows, k) <= 0.0
  {
    if |rows| != 0 {
      var n := |rows| - 1;
      assert rows[n] in rows && forall e <- rows[..n] :: e in rows;
      NoReceiptNoTotal(rows[..n], k);
    }
  }

  lemma WarehouseKeepsFirstExactly(a: Archive, w: string, cutoff: int, run: string, now: int, k: Key)
    ensures var rows := DueRows(a.ledger, w, cutoff);
      FirstReceipt(ArchiveWarehouse(a, w, cutoff, run, now).ledger, k) == FirstReceipt(a.ledger, k) <==>
        TotalAt(rows, k) > 0.0 || FirstReceipt(rows, k).None?
  {
    var rows, stays := DueRows(a.ledger, w, cutoff), Filter(a.ledger, Stays(w, cutoff));
    var carries := CarryForwards(rows, cutoff, run, now);
    DueRowsAreDue(a.ledger, w, cutoff);
    DueRowsAreSorted(a.ledger, w, cutoff);
    FilterMembers(a.ledger, Stays(w, cutoff));
    FirstOfBoth(rows, stays, a.ledger, k);
    FirstOfBoth(stays, carries, stays + carries, k);
    CarryForwardFirst(rows, cutoff, run, now, k);
    FirstReceiptIsFirst(rows, k);
    FirstReceiptIsFirst(stays, k);
    if FirstReceipt(rows, k).Some? {
      var e :| e in rows && IsReceipt(e, k);
      assert k.warehouse == w && FirstReceipt(rows, k).value < cutoff;
    }
  }

  function HasKey(k: Key): Entry -> bool { (e: Entry) => e.key == k }

  lemma OtherKeysStay(a: Archive, w: string, cutoff: int, run: string, now: int, k: Key)
    requires k.warehouse != w
    ensures Filter(ArchiveWarehouse(a, w, cutoff, run, now).ledger, HasKey(k)) == Filter(a.ledger, HasKey(k))
  {
    var rows, stays := DueRows(a.ledger, w, cutoff), Filter(a.ledger, Stays(w, cutoff));
    var carries := CarryForwards(rows, cutoff, run, now);
    DueRowsAreDue(a.ledger, w, cutoff);
    CarriesComeFrom(rows, cutoff, run, now);
    FilterConcat(stays, carries, HasKey(k));
    FilterTwice(a.ledger, Stays(w, cutoff), HasKey(k));
    FilterNone(carries, HasKey(k));
  }

  lemma CarriesComeFrom(rows: seq<Entry>, cutoff: int, run: string, now: int)
    ensures forall c <- CarryForwards(rows, cutoff, run, now) :: exists e <- rows :: e.key == c.key
  {
    TallyIsCounted(rows);
    TallyKeys(rows);
    CarriesAre(TallyOf(rows), TallyOf(rows).keys, cutoff, run, now);
  }

  lemma {:induction false} OtherKeysStayThroughout(a: Archive, ws: seq<string>, cutoff: int, run: string, now: int,
        k: Key)
    requires k.warehouse !in ws
    ensures Filter(ArchiveAll(a, ws, cutoff, run, now).ledger, HasKey(k)) == Filter(a.ledger, HasKey(k))
  {
    if |ws| != 0 {
      var n := |ws| - 1;
      OtherKeysStayThroughout(a, ws[..n], cutoff, run, now, k);
      OtherKeysStay(ArchiveAll(a, ws[..n], cutoff, run, now), ws[n], cutoff, run, now, k);
    }
  }

  /** What is read of a position only depends on the entries with its key. */
  lemma ReadByKey(ledger: seq<Entry>, other: seq<Entry>, w: string, cutoff: int, k: Key)
    requires Filter(ledger, HasKey(k)) == Filter(other, HasKey(k))
    ensures FirstReceipt(ledger, k) == FirstReceipt(other, k)
    ensures TotalAt(DueRows(ledger, w, cutoff), k) == TotalAt(DueRows(other, w, cutoff), k)
    ensures FirstReceipt(DueRows(ledger, w, cutoff), k) == FirstReceipt(DueRows(other, w, cutoff), k)
  {
    FilterMembers(ledger, HasKey(k));
    FilterMembers(other, HasKey(k));
    FirstReceiptIsFirst(ledger, k);
    FirstIsUnique(other, k, FirstReceipt(ledger, k));
    DueRowsAreDue(ledger, w, cutoff);
    DueRowsAreDue(other, w, cutoff);
    FirstReceiptIsFirst(DueRows(ledger, w, cutoff), k);
    FirstIsUnique(DueRows(other, w, cutoff), k, FirstReceipt(DueRows(ledger, w, cutoff), k));
    DueTotalByKey(ledger, w, cutoff, k);
    DueTotalByKey(other, w, cutoff, k);
  }

  function DueQty(w: string, cutoff: int, k: Key): Entry -> real {
    (e: Entry) => if e.key == k && Due(w, cutoff)(e) then e.quantity else 0.0
  }

  lemma SumCons(e: Entry, s: seq<Entry>, f: Entry -> real)
    ensures Sum([e] + s, f) == f(e) + Sum(s, f)
  {
    SumConcat([e], s, f);
  }

  lemma {:induction false} SumFiltered(s: seq<Entry>, keep: Entry -> bool, f: Entry -> real, g: Entry -> real)
    requires forall e <- s :: g(e) == if keep(e) then f(e) else 0.0
    ensures Sum(Filter(s, keep), f) == Sum(s, g)
    decreases |s|
  {
    if |s| != 0 {
      var h, rest := s[0], s[1..];
      assert s == [h] + rest && h in s && forall e <- rest :: e in s;
      SumFiltered(rest, keep, f, g);
      SumCons(h, rest, g);
      SumCons(h, Filter(rest, keep), f);
      assert Filter(s, keep) == (if keep(h) then [h] + Filter(rest, keep) else Filter(rest, keep));
    }
  }

  lemma DueTotalByKey(ledger: seq<Entry>, w: string, cutoff: int, k: Key)
    ensures TotalAt(DueRows(ledger, w, cutoff), k) == Sum(Filter(ledger, HasKey(k)), DueQty(w, cutoff, k))
  {
    var due := Filter(ledger, Due(w, cutoff));
    SortPermutes(due, ByTime());
    SumPermutation(DueRows(ledger, w, cutoff), due, QtyOf(k));
    SumFiltered(ledger, Due(w, cutoff), QtyOf(k), DueQty(w, cutoff, k));
    SumFiltered(ledger, HasKey(k), DueQty(w, cutoff, k), DueQty(w, cutoff, k));
  }

  ghost predicate DistinctWarehouses(ws: seq<string>) { forall i, j :: 0 <= i < j < |ws| ==> ws[i] != ws[j] }

  /** A position's first receipt survives the run exactly when its archived stock is positive or held no receipt. */
  lemma {:induction false} ArchivingKeepsFirstExactly(a: Archive, ws: seq<string>, cutoff: int, run: string, now: int,
        k: Key)
    requires DistinctWarehouses(ws) && k.warehouse in ws
    ensures var rows := DueRows(a.ledger, k.warehouse, cutoff);
      FirstReceipt(ArchiveAll(a, ws, cutoff, run, now).ledger, k) == FirstReceipt(a.ledger, k) <==>
        TotalAt(rows, k) > 0.0 || FirstReceipt(rows, k).None?
  {
    var n, w := |ws| - 1, k.warehouse;
    var before := ArchiveAll(a, ws[..n], cutoff, run, now);
    if ws[n] == w {
      OtherKeysStayThroughout(a, ws[..n], cutoff, run, now, k);
      ReadByKey(before.ledger, a.ledger, w, cutoff, k);
      WarehouseKeepsFirstExactly(before, w, cutoff, run, now, k);
    } else {
      ArchivingKeepsFirstExactly(a, ws[..n], cutoff, run, now, k);
      OtherKeysStay(before, ws[n], cutoff, run, now, k);
      ReadByKey(before.ledger, ArchiveWarehouse(before, ws[n], cutoff, run, now).ledger, w, cutoff, k);
    }
  }

  // ---------------------------------------------------------------- twice is once

  /** At most one entry for each key, and none of quantity zero: the balances they stand for. */
  ghost predicate AreBalances(carries: seq<Entry>) {
    && (forall i, j :: 0 <= i < j < |carries| ==> carries[i].key != carries[j].key)
    && (forall e <- carries :: e.quantity != 0.0)
  }

  lemma {:induction false} CarriesAreBalances(t: Tally, keys: seq<Key>, cutoff: int, run: string, now: int)
    requires DistinctKeys(keys) && forall q <- keys :: q in t.totals && q in t.uom
    ensures AreBalances(Carries(t, keys, cutoff, run, now))
  {
    if |keys| != 0 {
      var n := |keys| - 1;
      CarriesAreBalances(t, keys[..n], cutoff, run, now);
      CarriesAre(t, keys[..n], cutoff, run, now);
      var before := Carries(t, keys[..n], cutoff, run, now);
      forall i | 0 <= i < |before| ensures before[i].key != keys[n] { assert before[i] in before; }
    }
  }

  lemma CarriesAreOld(rows: seq<Entry>, w: string, cutoff: int, later: int, run: string, now: int)
    requires cutoff <= later && Sorted(rows, ByTime()) && forall e <- rows :: Due(w, cutoff)(e)
    ensures forall c <- CarryForwards(rows, cutoff, run, now) :: Due(w, later)(c)
  {
    var t := TallyOf(rows);
    TallyIsCounted(rows);
    TallyKeys(rows);
    CarriesAre(t, t.keys, cutoff, run, now);
    forall c | c in CarryForwards(rows, cutoff, run, now) ensures Due(w, later)(c) {
      var e :| e in rows && e.key == c.key;
      FirstInIsFirst(rows, c.key);
      FirstReceiptIsFirst(rows, c.key);
    }
  }

  /** Archiving at a cutoff and again at a later one leaves the same entries, and carries the same quantities, as the
      later one alone. */
  lemma TwiceIsOnce(a: Archive, w: string, c1: int, c2: int, run1: string, run2: string, now1: int, now2: int)
    requires c1 <= c2
    ensures var stays := Filter(a.ledger, Stays(w, c2));
      var twice := ArchiveWarehouse(ArchiveWarehouse(a, w, c1, run1, now1), w, c2, run2, now2).ledger;
      var once := ArchiveWarehouse(a, w, c2, run2, now2).ledger;
      && |stays| <= |twice| && |stays| <= |once| && twice[..|stays|] == once[..|stays|] == stays
      && AreBalances(twice[|stays|..]) && AreBalances(once[|stays|..])
      && (forall k :: TotalAt(twice[|stays|..], k) == TotalAt(once[|stays|..], k))
  {
    var first := ArchiveWarehouse(a, w, c1, run1, now1);
    var rows1, rows2, rows := DueRows(a.ledger, w, c1), DueRows(first.ledger, w, c2), DueRows(a.ledger, w, c2);
    var kept1, stays := Filter(a.ledger, Stays(w, c1)), Filter(a.ledger, Stays(w, c2));
    var carries1 := CarryForwards(rows1, c1, run1, now1);
    DueRowsAreDue(a.ledger, w, c1);
    DueRowsAreSorted(a.ledger, w, c1);
    CarriesAreOld(rows1, w, c1, c2, run1, now1);
    FilterConcat(kept1, carries1, Stays(w, c2));
    FilterTwice(a.ledger, Stays(w, c1), Stays(w, c2));
    FilterNone(carries1, Stays(w, c2));
    assert Filter(first.ledger, Stays(w, c2)) == stays;
    var carries2, carries := CarryForwards(rows2, c2, run2, now2), CarryForwards(rows, c2, run2, now2);
    CarryForwardsAreBalances(rows2, c2, run2, now2);
    CarryForwardsAreBalances(rows, c2, run2, now2);
    forall k ensures TotalAt(carries2, k) == TotalAt(carries, k) {
      CarryForwardsTotal(rows2, c2, run2, now2, k);
      CarryForwardsTotal(rows, c2, run2, now2, k);
      WarehouseKeepsTotals(a, w, c1, run1, now1, k);
      PartitionTotal(first.ledger, w, c2, QtyOf(k));
      PartitionTotal(a.ledger, w, c2, QtyOf(k));
    }
    Cut(stays, carries2);
    Cut(stays, carries);
  }

  lemma Cut<T>(a: seq<T>, b: seq<T>)
    ensures (a + b)[..|a|] == a && (a + b)[|a|..] == b
  {
  }

  lemma CarryForwardsAreBalances(rows: seq<Entry>, cutoff: int, run: string, now: int)
    ensures AreBalances(CarryForwards(rows, cutoff, run, now))
  {
    TallyIsCounted(rows);
    TallyKeys(rows);
    CarriesAreBalances(TallyOf(rows), TallyOf(rows).keys, cutoff, run, now);
  }

  // ---------------------------------------------------------------- owners

  function QtyOfOwner(k: Key, owner: string): Entry -> real {
    (e: Entry) => if e.key == k && e.owner == owner then e.quantity else 0.0
  }

  function TotalOfOwner(ledger: seq<Entry>, k: Key, owner: string): real { Sum(ledger, QtyOfOwner(k, owner)) }

  lemma {:induction false} CarriesHaveNoOwner(carries: seq<Entry>, k: Key, owner: string)
    requires forall e <- carries :: e.owner == ""
    ensures TotalOfOwner(carries, k, owner) == if owner == "" then TotalAt(carries, k) else 0.0
  {
    if |carries| != 0 {
      var n := |carries| - 1;
      assert carries[n] in carries && forall e <- carries[..n] :: e in carries;
      CarriesHaveNoOwner(carries[..n], k, owner);
    }
  }

  lemma OwnerTotalAfter(a: Archive, w: string, cutoff: int, run: string, now: int, k: Key, owner: string)
    ensures var rows := DueRows(a.ledger, w, cutoff);
      TotalOfOwner(ArchiveWarehouse(a, w, cutoff, run, now).ledger, k, owner)
        == TotalOfOwner(a.ledger, k, owner) - TotalOfOwner(rows, k, owner) + if owner == "" then TotalAt(rows, k)
            else 0.0
  {
    var rows, stays := DueRows(a.ledger, w, cutoff), Filter(a.ledger, Stays(w, cutoff));
    var carries := CarryForwards(rows, cutoff, run, now);
    PartitionTotal(a.ledger, w, cutoff, QtyOfOwner(k, owner));
    SumConcat(stays, carries, QtyOfOwner(k, owner));
    TallyIsCounted(rows);
    CarriesAre(TallyOf(rows), TallyOf(rows).keys, cutoff, run, now);
    CarriesHaveNoOwner(carries, k, owner);
    CarryForwardsTotal(rows, cutoff, run, now, k);
  }

  function IsNotOwner(owner: string): Entry -> bool { (e: Entry) => e.owner != owner }

  function QtyOwned(k: Key): Entry -> real { (e: Entry) => if e.key == k && e.owner != "" then e.quantity else 0.0 }

  lemma {:induction false} SumAdds(s: seq<Entry>, f: Entry -> real, g: Entry -> real, h: Entry -> real)
    requires forall e <- s :: f(e) == g(e) + h(e)
    ensures Sum(s, f) == Sum(s, g) + Sum(s, h)
  {
    if |s| != 0 {
      var n := |s| - 1;
      assert s[n] in s && forall e <- s[..n] :: e in s;
      SumAdds(s[..n], f, g, h);
    }
  }

  lemma FilterShrinks(s: seq<Entry>, keep: Entry -> bool)
    ensures |Filter(s, keep)| <= |s|
    decreases |s|
  {
    if |s| != 0 { FilterShrinks(s[1..], keep); }
  }

  lemma OwnerElsewhere(rows: seq<Entry>, k: Key, p: string, o: string)
    ensures TotalOfOwner(Filter(rows, IsNotOwner(o)), k, p) == if p == o then 0.0 else TotalOfOwner(rows, k, p)
  {
    if p == o {
      SumFiltered(rows, IsNotOwner(o), QtyOfOwner(k, p), Nothing());
      SumOfNothing(rows);
    } else {
      SumFiltered(rows, IsNotOwner(o), QtyOfOwner(k, p), QtyOfOwner(k, p));
    }
  }

  /** When every owner's share is zero, so is all that is owned. */
  lemma {:induction false} SharesAddUp(rows: seq<Entry>, k: Key)
    requires forall o :: o != "" ==> TotalOfOwner(rows, k, o) == 0.0
    ensures Sum(rows, QtyOwned(k)) == 0.0
    decreases |rows|
  {
    if |rows| != 0 {
      var o := rows[0].owner;
      var others := Filter(rows, IsNotOwner(o));
      FilterShrinks(rows[1..], IsNotOwner(o));
      forall p | p != "" ensures TotalOfOwner(others, k, p) == 0.0 {
        OwnerElsewhere(rows, k, p, o);
        assert TotalOfOwner(rows, k, p) == 0.0;
      }
      SharesAddUp(others, k);
      OwnedElse(rows, k, o);
    }
  }

  function Nothing(): Entry -> real { (e: Entry) => 0.0 }

  lemma {:induction false} SumOfNothing(rows: seq<Entry>)
    ensures Sum(rows, Nothing()) == 0.0
  {
    if |rows| != 0 { SumOfNothing(rows[..|rows| - 1]); }
  }

  function OwnedApart(k: Key, o: string): Entry -> real {
    (e: Entry) => if e.key == k && e.owner != "" && e.owner != o then e.quantity else 0.0
  }

  function OwnedBy(k: Key, o: string): Entry -> real {
    (e: Entry) => if e.key == k && e.owner != "" && e.owner == o then e.quantity else 0.0
  }

  lemma OwnedElse(rows: seq<Entry>, k: Key, o: string)
    requires forall p :: p != "" ==> TotalOfOwner(rows, k, p) == 0.0
    ensures Sum(rows, QtyOwned(k)) == Sum(Filter(rows, IsNotOwner(o)), QtyOwned(k))
  {
    SumAdds(rows, QtyOwned(k), OwnedApart(k, o), OwnedBy(k, o));
    SumFiltered(rows, IsNotOwner(o), QtyOwned(k), OwnedApart(k, o));
    if o == "" {
      SumOfNothing(rows);
      SumAgree(rows, rows, OwnedBy(k, o), Nothing());
    } else {
      SumAgree(rows, rows, OwnedBy(k, o), QtyOfOwner(k, o));
      assert TotalOfOwner(rows, k, o) == 0.0;
    }
  }

  /** The carry-forward has no owner: a position's owners keep their totals exactly when nothing owned was left over in
      what was archived. */
  lemma OwnersKeepTotalsExactly(a: Archive, w: string, cutoff: int, run: string, now: int, k: Key)
    ensures (forall o :: TotalOfOwner(ArchiveWarehouse(a, w, cutoff, run, now).ledger, k, o) == TotalOfOwner(a.ledger,
        k, o))
       <==> (forall o :: o != "" ==> TotalOfOwner(DueRows(a.ledger, w, cutoff), k, o) == 0.0)
  {
    var rows := DueRows(a.ledger, w, cutoff);
    forall o ensures TotalOfOwner(ArchiveWarehouse(a, w, cutoff, run, now).ledger, k, o)
        == TotalOfOwner(a.ledger, k, o) - TotalOfOwner(rows, k, o) + if o == "" then TotalAt(rows, k) else 0.0 {
      OwnerTotalAfter(a, w, cutoff, run, now, k, o);
    }
    if forall o :: o != "" ==> TotalOfOwner(rows, k, o) == 0.0 {
      SharesAddUp(rows, k);
      SumAdds(rows, QtyOf(k), QtyOfOwner(k, ""), QtyOwned(k));
    }
  }

  // ---------------------------------------------------------------- the archive over time

  datatype Step =
    | PostEntry(entry: Entry)
    | StartRun(run: Run)
    | Execute(i: nat, warehouses: seq<string>, now: int, fails: bool)

  function Perform(s: System, step: Step): System {
    match step
    case PostEntry(entry) => s.(ledger := s.ledger + [entry])
    case StartRun(run) => s.(runs := s.runs + [run.(status := Queued)])
    case Execute(i, warehouses, now, fails) => if i < |s.runs| then ExecuteRun(s, i, warehouses, now, fails) else s
  }

  function RunAll(s: System, steps: seq<Step>): System {
    if |steps| == 0 then s else Perform(RunAll(s, steps[..|steps| - 1]), steps[|steps| - 1])
  }

  function PostedAt(steps: seq<Step>, k: Key): real {
    var n := |steps| - 1;
    if |steps| == 0 then 0.0
    else
      var posted := if steps[n].PostEntry? && steps[n].entry.key == k then steps[n].entry.quantity else 0.0;
      PostedAt(steps[..n], k) + posted
  }

  /** Whatever is archived in between, a position's ledger total is what was posted to it. */
  lemma {:induction false} LedgerIsWhatWasPosted(s: System, steps: seq<Step>, k: Key)
    ensures TotalAt(RunAll(s, steps).ledger, k) == TotalAt(s.ledger, k) + PostedAt(steps, k)
  {
    if |steps| != 0 {
      var n := |steps| - 1;
      var before := RunAll(s, steps[..n]);
      LedgerIsWhatWasPosted(s, steps[..n], k);
      match steps[n]
      case PostEntry(entry) => SumConcat(before.ledger, [entry], QtyOf(k));
      case StartRun(run) =>
      case Execute(i, warehouses, now, fails) =>
        if i < |before.runs| {
          var run := before.runs[i];
          ArchivingKeepsTotals(Archive(before.ledger, [], []), WarehousesOf(run, warehouses), run.cutoff, run.name, now,
              k);
        }
    }
  }

  /** Every archived line is older than the newest cutoff of its warehouse. */
  ghost predicate ArchivedIsOld(s: System) { forall l <- s.archived :: IsOld(s.runs, l) }

  predicate IsOld(runs: seq<Run>, l: Line) {
    LatestCutoff(runs, l.key.warehouse).Some? && l.time < LatestCutoff(runs, l.key.warehouse).value
  }

  lemma {:induction false} LatestIsLatest(runs: seq<Run>, w: string, i: nat)
    requires i < |runs| && Covers(runs[i], w)
    ensures LatestCutoff(runs, w).Some? && runs[i].cutoff <= LatestCutoff(runs, w).value
  {
    if i < |runs| - 1 { LatestIsLatest(runs[..|runs| - 1], w, i); }
  }

  lemma {:induction false} LatestIsSome(runs: seq<Run>, w: string) returns (i: nat)
    requires LatestCutoff(runs, w).Some?
    ensures i < |runs| && Covers(runs[i], w) && runs[i].cutoff == LatestCutoff(runs, w).value
  {
    var n := |runs| - 1;
    if Covers(runs[n], w) && LatestCutoff(runs, w) == Some(runs[n].cutoff) {
      i := n;
    } else {
      i := LatestIsSome(runs[..n], w);
    }
  }

  lemma LatestOnlyGrows(runs: seq<Run>, more: seq<Run>, l: Line)
    requires IsOld(runs, l) && |runs| <= |more|
    requires forall i :: 0 <= i < |runs| && runs[i].status == Completed ==> more[i] == runs[i]
    ensures IsOld(more, l)
  {
    var i := LatestIsSome(runs, l.key.warehouse);
    LatestIsLatest(more, l.key.warehouse, i);
  }

  lemma {:induction false} ArchivedLinesAreDue(ledger: seq<Entry>, ws: seq<string>, cutoff: int, run: string, now: int)
    ensures forall l <- ArchiveAll(Archive(ledger, [], []), ws, cutoff, run, now).lines ::
        l.time < cutoff && l.key.warehouse in ws
  {
    if |ws| != 0 {
      var n := |ws| - 1;
      ArchivedLinesAreDue(ledger, ws[..n], cutoff, run, now);
      var before := ArchiveAll(Archive(ledger, [], []), ws[..n], cutoff, run, now);
      DueRowsAreDue(before.ledger, ws[n], cutoff);
      var rows := DueRows(before.ledger, ws[n], cutoff);
      forall l | l in Erased(rows) ensures l.time < cutoff && l.key.warehouse == ws[n] {
        var i :| 0 <= i < |rows| && Erased(rows)[i] == l;
        assert rows[i] in rows && l == LineOf(rows[i]);
      }
      assert ws == ws[..n] + [ws[n]];
    }
  }

  lemma ExecuteKeepsOld(s: System, i: nat, warehouses: seq<string>, now: int, fails: bool)
    requires ArchivedIsOld(s) && i < |s.runs|
    ensures ArchivedIsOld(ExecuteRun(s, i, warehouses, now, fails))
  {
    var run, after := s.runs[i], ExecuteRun(s, i, warehouses, now, fails);
    var lines := ArchiveAll(Archive(s.ledger, [], []), WarehousesOf(run, warehouses), run.cutoff, run.name, now).lines;
    ArchivedLinesAreDue(s.ledger, WarehousesOf(run, warehouses), run.cutoff, run.name, now);
    forall l | l in after.archived ensures IsOld(after.runs, l) {
      if l in s.archived {
        LatestOnlyGrows(s.runs, after.runs, l);
      } else {
        assert l in lines;
        LatestIsLatest(after.runs, l.key.warehouse, i);
      }
    }
  }

  lemma {:induction false} RunKeepsOld(s: System, steps: seq<Step>)
    requires ArchivedIsOld(s)
    ensures ArchivedIsOld(RunAll(s, steps))
  {
    if |steps| != 0 {
      var n := |steps| - 1;
      var before := RunAll(s, steps[..n]);
      RunKeepsOld(s, steps[..n]);
      match steps[n]
      case PostEntry(entry) =>
      case StartRun(run) =>
        forall l | l in before.archived
          ensures IsOld(Perform(before, steps[n]).runs, l)
        {
          LatestOnlyGrows(before.runs, Perform(before, steps[n]).runs, l);
        }
      case Execute(i, warehouses, now, fails) =>
        if i < |before.runs| { ExecuteKeepsOld(before, i, warehouses, now, fails); }
    }
  }

  /** Where a document may still be reversed, everything the archive has of its warehouse is older than the document. */
  lemma ReversibleIsNotArchived(s: System, steps: seq<Step>, warehouse: string, posted: int)
    requires s.archived == [] && IsReversible(RunAll(s, steps).runs, warehouse, posted)
    ensures forall l <- RunAll(s, steps).archived :: l.key.warehouse == warehouse ==> l.time < posted
  {
    RunKeepsOld(s, steps);
  }
}
