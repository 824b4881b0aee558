/** What holds in every state a physical count can reach. */
module InventoryCountProofs {
  import opened Basics
  import opened InventoryCount

  // ---------------------------------------------------------------- invariants

  ghost predicate SaneRow(row: Row) {
    && row.recounts <= 1
    && (row.status == PendingRecount ==> row.recounts == 0)
    && (row.status != Open ==>
        row.counted.Some? && row.counted.value >= 0.0 && row.variance == Some(row.counted.value - row.book))
    && (row.status == PendingRecount || row.status == PendingApproval ==> Variance(row) != 0.0)
  }

  ghost predicate SaneRows(rows: seq<Row>) { forall i :: 0 <= i < |rows| ==> SaneRow(rows[i]) }

  ghost predicate SaneStatus(status: CountStatus, rows: seq<Row>) {
    match status
    case Draft => rows == []
    case Counting => Any(rows, Open) && !Any(rows, PendingRecount)
    case AllCounted => !Any(rows, Open) && !Any(rows, PendingRecount) && !EveryRowPosted(rows)
    case UnderReview => !Any(rows, Open) && !Any(rows, Counted) && !EveryRowPosted(rows)
    case AllPosted => EveryRowPosted(rows)
    case Cancelled => rows == [] || !EveryRowPosted(rows)
  }

  /** The row's difference has gone into the books. */
  predicate Booked(row: Row) { row.status == Posted && Variance(row) != 0.0 }

  /** What reached ERP for a row number. */
  function Mirrored(mirror: seq<Mirror>, i: nat): (r: seq<real>) {
    var n := |mirror| - 1;
    if |mirror| == 0 then [] else Mirrored(mirror[..n], i) + if mirror[n].row == i then [mirror[n].amount] else []
  }

  /** A booked row is in the ledger and in ERP once each, with its difference; any other is in neither. */
  ghost predicate Entered(s: State, i: nat) {
    if i < |s.count.rows| && Booked(s.count.rows[i])
    then i in s.ledger && s.ledger[i] == Variance(s.count.rows[i]) &&
        Mirrored(s.mirror, i) == [Variance(s.count.rows[i])]
    else i !in s.ledger && Mirrored(s.mirror, i) == []
  }

  ghost predicate Exact(s: State) { forall i: nat :: Entered(s, i) }

  predicate UnderWay(status: CountStatus) { status == Counting || status == AllCounted || status == UnderReview }

  /** Counted bins stay blocked while the count is under way, and afterwards just those are blocked that were before. */
  ghost predicate BinsHeld(s: State, original: set<string>) {
    && s.count.blocked !! original
    && BinsOf(s.count.rows) <= original + s.count.blocked
    && (s.count.status == Draft ==> s.count.blocked == {})
    && s.bins == if UnderWay(s.count.status) then original + s.count.blocked else original
  }

  ghost predicate Sane(s: State) { SaneRows(s.count.rows) && SaneStatus(s.count.status, s.count.rows) }

  // ---------------------------------------------------------------- rows and books

  lemma {:induction false} MirroredConcat(a: seq<Mirror>, b: seq<Mirror>, i: nat)
    ensures Mirrored(a + b, i) == Mirrored(a, i) + Mirrored(b, i)
  {
    if |b| == 0 {
      assert a + b == a;
    } else {
      var n := |b| - 1;
      assert (a + b)[..|a + b| - 1] == a + b[..n];
      MirroredConcat(a, b[..n], i);
    }
  }

  lemma {:induction false} SnapshotRowsAreOpen(stock: map<Place, Balance>, found: seq<Place>)
    ensures forall i ::
        0 <= i < |SnapshotRows(stock, found)| ==>
          SaneRow(SnapshotRows(stock, found)[i]) && SnapshotRows(stock, found)[i].status == Open
  {
    if |found| != 0 { SnapshotRowsAreOpen(stock, found[..|found| - 1]); }
  }

  ghost predicate NamesBooked(rows: seq<Row>, counts: map<nat, real>) {
    exists i: nat :: i in counts && i < |rows| && Booked(rows[i])
  }

  lemma {:induction false} RecordedRows(settings: Settings, rows: seq<Row>, counts: map<nat, real>, user: string)
    requires RecordRows(settings, rows, counts, user).Some?
    ensures var after := RecordRows(settings, rows, counts, user).value;
      forall i :: 0 <= i < |rows| ==>
          if i in counts then RecordRow(settings, rows[i], counts[i], user) == Some(after[i]) else after[i] == rows[i]
  {
    var n := |rows| - 1;
    if |rows| != 0 {
      RecordedRows(settings, rows[..n], counts, user);
    }
  }

  /** What a pass does to the rows. */
  lemma {:induction false} PassedRows(settings: Settings, rows: seq<Row>, verdict: Row -> Verdict, book: Book)
    requires PostRows(settings, rows, verdict, book).Some?
    ensures forall i ::
        0 <= i < |rows| ==> PostRows(settings, rows, verdict, book).value.rows[i] == After(verdict(rows[i]), rows[i])
  {
    if |rows| != 0 { PassedRows(settings, rows[..|rows| - 1], verdict, book); }
  }

  /** What a pass sends to ERP for a row number. */
  lemma {:induction false} PassedMirror(settings: Settings, rows: seq<Row>, verdict: Row -> Verdict, book: Book, i: nat)
    requires PostRows(settings, rows, verdict, book).Some?
    ensures Mirrored(PostRows(settings, rows, verdict, book).value.posted, i) == if i < |rows| &&
        verdict(rows[i]) == PostIt then [Variance(rows[i])] else []
  {
    if |rows| != 0 {
      var n := |rows| - 1;
      PassedMirror(settings, rows[..n], verdict, book, i);
      if verdict(rows[n]) == PostIt {
        MirroredConcat(PostRows(settings, rows[..n], verdict, book).value.posted, [Mirror(n, Variance(rows[n]))], i);
      }
    }
  }

  ghost predicate SameEntry(a: map<nat, real>, b: map<nat, real>, i: nat) {
    (i in a <==> i in b) && (i in a ==> a[i] == b[i])
  }

  lemma {:induction false} PassLeavesEntry(settings: Settings, rows: seq<Row>, verdict: Row -> Verdict, book: Book,
        i: nat)
    requires PostRows(settings, rows, verdict, book).Some?
    requires i < |rows| ==> verdict(rows[i]) != PostIt
    ensures SameEntry(PostRows(settings, rows, verdict, book).value.book.ledger, book.ledger, i)
  {
    if |rows| != 0 { PassLeavesEntry(settings, rows[..|rows| - 1], verdict, book, i); }
  }

  lemma {:induction false} PassMakesEntry(settings: Settings, rows: seq<Row>, verdict: Row -> Verdict, book: Book,
        i: nat)
    requires PostRows(settings, rows, verdict, book).Some?
    requires i < |rows| && verdict(rows[i]) == PostIt && i !in book.ledger && Variance(rows[i]) != 0.0
    ensures var ledger := PostRows(settings, rows, verdict, book).value.book.ledger;
        i in ledger && ledger[i] == Variance(rows[i])
  {
    var n := |rows| - 1;
    if i < n {
      PassMakesEntry(settings, rows[..n], verdict, book, i);
    } else {
      PassLeavesEntry(settings, rows[..n], verdict, book, i);
    }
  }

  /** A verdict that posts only unbooked differences, and leaves booked rows alone. */
  ghost predicate Fair(verdict: Row -> Verdict, rows: seq<Row>) {
    forall i :: 0 <= i < |rows| ==>
      && (rows[i].status == Posted ==> verdict(rows[i]) == Skip)
      && (verdict(rows[i]) == PostIt ==> rows[i].status != Posted && Variance(rows[i]) != 0.0)
      && (verdict(rows[i]) == NothingToPost ==> Variance(rows[i]) == 0.0)
  }

  lemma SettleIsExact(settings: Settings, s: State, verdict: Row -> Verdict)
    requires Exact(s) && Fair(verdict, s.count.rows) && Settle(settings, s, verdict).Some?
    ensures Exact(Settle(settings, s, verdict).value)
  {
    var rows, book := s.count.rows, Book(s.stock, s.ledger);
    var pass := PostRows(settings, rows, verdict, book).value;
    var after := Settle(settings, s, verdict).value;
    PassedRows(settings, rows, verdict, book);
    forall i: nat ensures Entered(after, i) {
      assert Entered(s, i);
      PassedMirror(settings, rows, verdict, book, i);
      MirroredConcat(s.mirror, pass.posted, i);
      if i < |rows| && verdict(rows[i]) == PostIt {
        PassMakesEntry(settings, rows, verdict, book, i);
      } else {
        PassLeavesEntry(settings, rows, verdict, book, i);
      }
    }
  }

  // ---------------------------------------------------------------- statuses, in every run

  lemma SnapshotIsSane(s: State, found: seq<Place>, busy: set<string>)
    requires Snapshot(s, found, busy).Some?
    ensures Sane(Snapshot(s, found, busy).value)
  {
    SnapshotRowsAreOpen(s.stock, found);
    assert SnapshotRows(s.stock, found)[0].status == Open;
  }

  lemma AddFoundIsSane(s: State, place: Place, quantity: real)
    requires Sane(s) && AddFound(s, place, quantity).Some?
    ensures Sane(AddFound(s, place, quantity).value)
  {
    var rows, after := s.count.rows, AddFound(s, place, quantity).value;
    var n := |rows|;
    assert after.count.rows[n].status == Counted;
    assert forall i :: 0 <= i < n ==> after.count.rows[i] == rows[i];
    if Any(rows, Open) {
      var i :| 0 <= i < n && rows[i].status == Open;
      assert after.count.rows[i].status == Open;
    }
  }

  lemma RecordedRowIsSane(settings: Settings, row: Row, counted: real, user: string)
    requires SaneRow(row) && RecordRow(settings, row, counted, user).Some?
    ensures SaneRow(RecordRow(settings, row, counted, user).value)
  {
  }

  lemma RecordedRowsAreSane(settings: Settings, rows: seq<Row>, counts: map<nat, real>, user: string)
    requires SaneRows(rows) && RecordRows(settings, rows, counts, user).Some?
    ensures SaneRows(RecordRows(settings, rows, counts, user).value)
  {
    var after := RecordRows(settings, rows, counts, user).value;
    RecordedRows(settings, rows, counts, user);
    forall i | 0 <= i < |rows| ensures SaneRow(after[i]) {
      assert SaneRow(rows[i]);
      if i in counts { RecordedRowIsSane(settings, rows[i], counts[i], user); }
    }
  }

  lemma RecordIsSane(settings: Settings, s: State, counts: map<nat, real>, user: string)
    requires Sane(s) && Record(settings, s, counts, user).Some?
    ensures Sane(Record(settings, s, counts, user).value)
  {
    var rows, after := s.count.rows, Record(settings, s, counts, user).value.count.rows;
    RecordedRowsAreSane(settings, rows, counts, user);
    RecordedRows(settings, rows, counts, user);
    assert forall i :: 0 <= i < |rows| ==> after[i] == rows[i] || after[i].status == Counted;
    var i :| 0 <= i < |rows| && rows[i].status != Posted;
    assert after[i].status != Posted;
  }

  ghost predicate Reviewed(row: Row) {
    row.status == Posted || row.status == PendingRecount || row.status == PendingApproval
  }

  lemma JudgedRow(settings: Settings, row: Row)
    requires SaneRow(row) && row.status != Open && row.status != PendingRecount
    ensures var after := After(Judge(settings)(row), row); SaneRow(after) && Reviewed(after)
  {
  }

  lemma ApprovedRow(row: Row)
    requires SaneRow(row) && row.status != Open && row.status != Counted
    ensures var after := After(Approve()(row), row); SaneRow(after) && Reviewed(after)
  {
  }

  lemma ReviewedStatus(rows: seq<Row>, status: CountStatus)
    requires forall i :: 0 <= i < |rows| ==> Reviewed(rows[i])
    ensures SaneStatus(Recompute(rows, status), rows)
  {
    if !EveryRowPosted(rows) {
      var i :| 0 <= i < |rows| && rows[i].status != Posted;
      assert Reviewed(rows[i]);
    }
  }

  lemma PostIsSane(settings: Settings, s: State)
    requires Sane(s) && PostCount(settings, s).Some?
    ensures Sane(PostCount(settings, s).value)
  {
    var rows, book := s.count.rows, Book(s.stock, s.ledger);
    PassedRows(settings, rows, Judge(settings), book);
    var after := PostRows(settings, rows, Judge(settings), book).value.rows;
    forall i | 0 <= i < |rows| ensures SaneRow(after[i]) && Reviewed(after[i]) {
      assert rows[i].status != Open && rows[i].status != PendingRecount;
      JudgedRow(settings, rows[i]);
    }
    ReviewedStatus(after, s.count.status);
  }

  lemma ApproveIsSane(settings: Settings, s: State)
    requires Sane(s) && ApproveVariance(settings, s).Some?
    ensures Sane(ApproveVariance(settings, s).value)
  {
    var rows, book := s.count.rows, Book(s.stock, s.ledger);
    PassedRows(settings, rows, Approve(), book);
    var after := PostRows(settings, rows, Approve(), book).value.rows;
    forall i | 0 <= i < |rows| ensures SaneRow(after[i]) && Reviewed(after[i]) {
      assert rows[i].status != Open && rows[i].status != Counted;
      ApprovedRow(rows[i]);
    }
    ReviewedStatus(after, s.count.status);
  }

  lemma RecountChanges(s: State)
    ensures RequestRecount(s).count.status == Counting <==>
        s.count.status == Counting || Any(s.count.rows, Open) || Any(s.count.rows, PendingRecount)
    ensures RequestRecount(s).count.status != Counting ==> RequestRecount(s) == s
    ensures !Any(RequestRecount(s).count.rows, PendingRecount)
    ensures Any(RequestRecount(s).count.rows, Open) <==> Any(s.count.rows, Open) || Any(s.count.rows, PendingRecount)
  {
    var rows, after := s.count.rows, RequestRecount(s).count.rows;
    assert forall i :: 0 <= i < |rows| ==> after[i] == Reopened(rows[i]);
    if i :| 0 <= i < |rows| && (rows[i].status == Open || rows[i].status == PendingRecount) {
      assert after[i].status == Open;
    } else {
      assert after == rows;
    }
  }

  lemma RecountIsSane(s: State)
    requires Sane(s)
    ensures Sane(RequestRecount(s))
  {
    var rows, after := s.count.rows, RequestRecount(s).count.rows;
    RecountChanges(s);
    forall i | 0 <= i < |rows| ensures SaneRow(after[i]) { assert SaneRow(rows[i]) && after[i] == Reopened(rows[i]); }
  }

  lemma StepIsSane(settings: Settings, s: State, step: Step)
    requires Sane(s)
    ensures Sane(Perform(settings, s, step))
  {
    match step
    case TakeSnapshot(found, busy) => if Snapshot(s, found, busy).Some? { SnapshotIsSane(s, found, busy); }
    case FindMore(place, quantity) => if AddFound(s, place, quantity).Some? { AddFoundIsSane(s, place, quantity); }
    case RecordCounts(counts, user) =>
      if Record(settings, s, counts, user).Some? { RecordIsSane(settings, s, counts, user); }
    case Post => if PostCount(settings, s).Some? { PostIsSane(settings, s); }
    case ApproveDifferences => if ApproveVariance(settings, s).Some? { ApproveIsSane(settings, s); }
    case AskForRecount => RecountIsSane(s);
    case Cancel =>
    case StockMoves(stock) =>
  }

  /** Counted: nothing waits for a count or a recount. Posted: exactly when every row is. No row is recounted twice. */
  lemma {:induction false} RunIsSane(settings: Settings, s: State, steps: seq<Step>)
    requires Sane(s)
    ensures var after := Run(settings, s, steps).count;
      && Sane(Run(settings, s, steps))
      && (after.status == AllCounted ==> !Any(after.rows, Open) && !Any(after.rows, PendingRecount))
      && (after.rows != [] ==> (after.status == AllPosted <==> EveryRowPosted(after.rows)))
      && (forall i :: 0 <= i < |after.rows| ==> after.rows[i].recounts <= 1)
    decreases |steps|
  {
    if |steps| != 0 {
      StepIsSane(settings, s, steps[0]);
      RunIsSane(settings, Perform(settings, s, steps[0]), steps[1..]);
    } else {
      assert forall i :: 0 <= i < |s.count.rows| ==> SaneRow(s.count.rows[i]);
    }
  }

  // ---------------------------------------------------------------- the books

  lemma SameBooks(s: State, after: State)
    requires Exact(s) && after.ledger == s.ledger && after.mirror == s.mirror
    requires forall i: nat ::
        i < |s.count.rows| && Booked(s.count.rows[i]) ==>
          i < |after.count.rows| && after.count.rows[i] == s.count.rows[i]
    requires forall i: nat ::
        i < |after.count.rows| && Booked(after.count.rows[i]) ==>
          i < |s.count.rows| && after.count.rows[i] == s.count.rows[i]
    ensures Exact(after)
  {
    forall i: nat ensures Entered(after, i) { assert Entered(s, i); }
  }

  /** Recording keeps the books exact unless it names a row whose difference they hold already. */
  lemma RecordKeepsBooksExactly(settings: Settings, s: State, counts: map<nat, real>, user: string)
    requires Exact(s) && Record(settings, s, counts, user).Some?
    ensures Exact(Record(settings, s, counts, user).value) <==> !NamesBooked(s.count.rows, counts)
  {
    var rows, after := s.count.rows, Record(settings, s, counts, user).value;
    RecordedRows(settings, rows, counts, user);
    if NamesBooked(rows, counts) {
      var i: nat :| i in counts && i < |rows| && Booked(rows[i]);
      assert Entered(s, i) && !Entered(after, i);
    } else {
      SameBooks(s, after);
    }
  }

  lemma VerdictsAreFair(settings: Settings, rows: seq<Row>)
    requires SaneRows(rows)
    ensures Fair(Judge(settings), rows) && Fair(Approve(), rows)
  {
    forall i | 0 <= i < |rows| ensures SaneRow(rows[i]) {}
  }

  lemma StepKeepsBooks(settings: Settings, s: State, step: Step)
    requires Sane(s) && Exact(s) && (step.RecordCounts? ==> !NamesBooked(s.count.rows, step.counts))
    ensures Exact(Perform(settings, s, step))
  {
    match step
    case RecordCounts(counts, user) =>
      if Record(settings, s, counts, user).Some? { RecordKeepsBooksExactly(settings, s, counts, user); }
    case Post =>
      VerdictsAreFair(settings, s.count.rows);
      if PostCount(settings, s).Some? { SettleIsExact(settings, s, Judge(settings)); }
    case ApproveDifferences =>
      VerdictsAreFair(settings, s.count.rows);
      if ApproveVariance(settings, s).Some? { SettleIsExact(settings, s, Approve()); }
    case TakeSnapshot(found, busy) =>
      SnapshotRowsAreOpen(s.stock, found);
      SameBooks(s, Perform(settings, s, step));
    case _ => SameBooks(s, Perform(settings, s, step));
  }

  ghost predicate NeverRecordsBooked(settings: Settings, s: State, steps: seq<Step>)
    decreases |steps|
  {
    |steps| == 0
    || ((steps[0].RecordCounts? ==> !NamesBooked(s.count.rows, steps[0].counts)) &&
        NeverRecordsBooked(settings, Perform(settings, s, steps[0]), steps[1..]))
  }

  /** Whatever the passes, a difference enters the ledger and ERP once. */
  lemma {:induction false} RunKeepsBooks(settings: Settings, s: State, steps: seq<Step>)
    requires Sane(s) && Exact(s) && NeverRecordsBooked(settings, s, steps)
    ensures Exact(Run(settings, s, steps))
    decreases |steps|
  {
    if |steps| != 0 {
      StepIsSane(settings, s, steps[0]);
      StepKeepsBooks(settings, s, steps[0]);
      RunKeepsBooks(settings, Perform(settings, s, steps[0]), steps[1..]);
    }
  }

  /** A fresh draft. */
  function NewCount(stock: map<Place, Balance>, bins: set<string>): State {
    State(Count(Draft, [], {}), stock, map[], [], bins)
  }

  function BookedQuantity(s: State, i: nat): real { if i in s.ledger then s.ledger[i] else 0.0 }

  /** When a count is posted, every row's ledger entry is what was counted less what was booked, and ERP has the
      same. */
  lemma PostedCountIsRight(settings: Settings, stock: map<Place, Balance>, bins: set<string>, steps: seq<Step>, i: nat)
    requires NeverRecordsBooked(settings, NewCount(stock, bins), steps)
    requires Run(settings, NewCount(stock, bins), steps).count.status == AllPosted
    requires i < |Run(settings, NewCount(stock, bins), steps).count.rows|
    ensures var s := Run(settings, NewCount(stock, bins), steps);
      var row := s.count.rows[i];
      && row.counted.Some? && BookedQuantity(s, i) == row.counted.value - row.book
      && Mirrored(s.mirror, i) == if row.counted.value == row.book then [] else [row.counted.value - row.book]
  {
    var s := Run(settings, NewCount(stock, bins), steps);
    RunIsSane(settings, NewCount(stock, bins), steps);
    RunKeepsBooks(settings, NewCount(stock, bins), steps);
    assert SaneRow(s.count.rows[i]) && Entered(s, i);
  }

  // ---------------------------------------------------------------- blocked bins

  lemma SameBins(rows: seq<Row>, after: seq<Row>)
    requires |rows| == |after| && forall i :: 0 <= i < |rows| ==> after[i].place == rows[i].place
    ensures BinsOf(after) == BinsOf(rows)
  {
  }

  /** A cancelled count with open work is taken up again, without its bins. */
  predicate Revives(s: State) {
    s.count.status == Cancelled && (Any(s.count.rows, Open) || Any(s.count.rows, PendingRecount))
  }

  /** A recount keeps the counted bins blocked unless it revives a count that had blocked some. */
  lemma RecountKeepsBinsExactly(s: State, original: set<string>)
    requires Sane(s) && BinsHeld(s, original)
    ensures BinsHeld(RequestRecount(s), original) <==> !(Revives(s) && s.count.blocked != {})
  {
    var after := RequestRecount(s);
    RecountChanges(s);
    SameBins(s.count.rows, after.count.rows);
    if Revives(s) && s.count.blocked != {} {
      var b :| b in s.count.blocked;
      assert b !in original && b in original + s.count.blocked;
    }
  }

  lemma SettleKeepsBins(settings: Settings, s: State, verdict: Row -> Verdict, original: set<string>)
    requires BinsHeld(s, original) && UnderWay(s.count.status) && Settle(settings, s, verdict).Some?
    ensures BinsHeld(Settle(settings, s, verdict).value, original)
  {
    PassedRows(settings, s.count.rows, verdict, Book(s.stock, s.ledger));
    SameBins(s.count.rows, Settle(settings, s, verdict).value.count.rows);
  }

  lemma AddFoundKeepsBins(s: State, place: Place, quantity: real, original: set<string>)
    requires BinsHeld(s, original) && AddFound(s, place, quantity).Some?
    ensures BinsHeld(AddFound(s, place, quantity).value, original)
  {
    var rows, after := s.count.rows, AddFound(s, place, quantity).value.count.rows;
    assert after == rows + [after[|rows|]];
    assert BinsOf(after) <= BinsOf(rows) + if place.bin != "" then {place.bin} else {};
  }

  lemma StepKeepsBins(settings: Settings, s: State, step: Step, original: set<string>)
    requires Sane(s) && BinsHeld(s, original) && (step.AskForRecount? ==> !(Revives(s) && s.count.blocked != {}))
    ensures BinsHeld(Perform(settings, s, step), original)
  {
    match step
    case TakeSnapshot(found, busy) =>
    case FindMore(place, quantity) =>
      if AddFound(s, place, quantity).Some? { AddFoundKeepsBins(s, place, quantity, original); }
    case RecordCounts(counts, user) =>
      if Record(settings, s, counts, user).Some? {
        RecordedRows(settings, s.count.rows, counts, user);
        SameBins(s.count.rows, Record(settings, s, counts, user).value.count.rows);
      }
    case Post => if PostCount(settings, s).Some? { SettleKeepsBins(settings, s, Judge(settings), original); }
    case ApproveDifferences =>
      if ApproveVariance(settings, s).Some? { SettleKeepsBins(settings, s, Approve(), original); }
    case AskForRecount => RecountKeepsBinsExactly(s, original);
    case Cancel =>
    case StockMoves(stock) =>
  }

  ghost predicate NeverRevives(settings: Settings, s: State, steps: seq<Step>)
    decreases |steps|
  {
    |steps| == 0
    || ((steps[0].AskForRecount? ==> !(Revives(s) && s.count.blocked != {})) &&
        NeverRevives(settings, Perform(settings, s, steps[0]), steps[1..]))
  }

  lemma {:induction false} RunKeepsBins(settings: Settings, s: State, steps: seq<Step>, original: set<string>)
    requires Sane(s) && BinsHeld(s, original) && NeverRevives(settings, s, steps)
    ensures BinsHeld(Run(settings, s, steps), original)
    decreases |steps|
  {
    if |steps| != 0 {
      StepIsSane(settings, s, steps[0]);
      StepKeepsBins(settings, s, steps[0], original);
      RunKeepsBins(settings, Perform(settings, s, steps[0]), steps[1..], original);
    }
  }

  /** While a count is under way every bin it touches is blocked; once it is over, the bins are as they were. */
  lemma BinsAreGivenBack(settings: Settings, stock: map<Place, Balance>, bins: set<string>, steps: seq<Step>)
    requires NeverRevives(settings, NewCount(stock, bins), steps)
    ensures var s := Run(settings, NewCount(stock, bins), steps);
      && (UnderWay(s.count.status) ==> BinsOf(s.count.rows) <= s.bins)
      && (!UnderWay(s.count.status) ==> s.bins == bins)
  {
    RunKeepsBins(settings, NewCount(stock, bins), steps, bins);
  }

  /** A count that starts later never opens a bin that an earlier one has blocked. */
  lemma LaterCountIsHarmless(settings: Settings, earlier: State, stock: map<Place, Balance>, steps: seq<Step>,
        original: set<string>)
    requires BinsHeld(earlier, original) && UnderWay(earlier.count.status)
    requires NeverRevives(settings, NewCount(stock, earlier.bins), steps)
    ensures BinsOf(earlier.count.rows) <= Run(settings, NewCount(stock, earlier.bins), steps).bins
  {
    RunKeepsBins(settings, NewCount(stock, earlier.bins), steps, earlier.bins);
  }

  /** The earlier count as it stands while the later one runs: bins and stock are shared. */
  function Meanwhile(earlier: State, later: State): State { earlier.(bins := later.bins, stock := later.stock) }

  /** Whatever step ends it, a count takes its block off the bins it has blocked itself. */
  lemma EndReleases(settings: Settings, s: State, step: Step)
    requires UnderWay(s.count.status) && !UnderWay(Perform(settings, s, step).count.status)
    ensures Perform(settings, s, step).bins == s.bins - s.count.blocked
  {
  }

  /** Two counts under way at once: when the earlier one ends, posted or cancelled, the later one's bins stay blocked
      exactly when the earlier had blocked none of them itself. */
  lemma EarlierEndKeepsBinsExactly(settings: Settings, earlier: State, stock: map<Place, Balance>, steps: seq<Step>,
        original: set<string>, end: Step)
    requires BinsHeld(earlier, original) && UnderWay(earlier.count.status)
    requires NeverRevives(settings, NewCount(stock, earlier.bins), steps)
    requires UnderWay(Run(settings, NewCount(stock, earlier.bins), steps).count.status)
    requires var later := Run(settings, NewCount(stock, earlier.bins), steps);
      !UnderWay(Perform(settings, Meanwhile(earlier, later), end).count.status)
    ensures var later := Run(settings, NewCount(stock, earlier.bins), steps);
      var ended := Perform(settings, Meanwhile(earlier, later), end);
      BinsOf(later.count.rows) <= ended.bins <==> BinsOf(later.count.rows) !! earlier.count.blocked
  {
    RunKeepsBins(settings, NewCount(stock, earlier.bins), steps, earlier.bins);
    var later := Run(settings, NewCount(stock, earlier.bins), steps);
    EndReleases(settings, Meanwhile(earlier, later), end);
    var ended := Perform(settings, Meanwhile(earlier, later), end);
    if BinsOf(later.count.rows) <= ended.bins {
      assert forall b <- BinsOf(later.count.rows) :: b in ended.bins && b !in earlier.count.blocked;
    }
  }

  // ---------------------------------------------------------------- stock

  function QuantityAt(stock: map<Place, Balance>, p: Place): real { if p in stock then stock[p].quantity else 0.0 }

  /** The differences a pass posts at a place. */
  function PostedAt(rows: seq<Row>, verdict: Row -> Verdict, p: Place): real {
    var n := |rows| - 1;
    if |rows| == 0 then 0.0
    else
      var posted := if verdict(rows[n]) == PostIt && rows[n].place == p then Variance(rows[n]) else 0.0;
      PostedAt(rows[..n], verdict, p) + posted
  }

  /** No row about to be posted has its key taken. */
  ghost predicate KeysAreFree(rows: seq<Row>, verdict: Row -> Verdict, ledger: map<nat, real>) {
    forall i :: 0 <= i < |rows| && verdict(rows[i]) == PostIt ==> i !in ledger
  }

  lemma {:induction false} PassMovesStock(settings: Settings, rows: seq<Row>, verdict: Row -> Verdict, book: Book,
        p: Place)
    requires PostRows(settings, rows, verdict, book).Some? && KeysAreFree(rows, verdict, book.ledger)
    ensures QuantityAt(PostRows(settings, rows, verdict, book).value.book.stock, p) ==
        QuantityAt(book.stock, p) + PostedAt(rows, verdict, p)
  {
    if |rows| != 0 {
      var n := |rows| - 1;
      assert KeysAreFree(rows[..n], verdict, book.ledger);
      PassMovesStock(settings, rows[..n], verdict, book, p);
      if verdict(rows[n]) == PostIt { PassLeavesEntry(settings, rows[..n], verdict, book, n); }
    }
  }

  lemma ExactKeysAreFree(s: State, verdict: Row -> Verdict)
    requires Exact(s) && Fair(verdict, s.count.rows)
    ensures KeysAreFree(s.count.rows, verdict, s.ledger)
  {
    forall i | 0 <= i < |s.count.rows| && verdict(s.count.rows[i]) == PostIt
      ensures i !in s.ledger
    {
      assert Entered(s, i);
    }
  }

  /** A pass moves the stock of every place by exactly the differences it posts there. */
  lemma SettleMovesStock(settings: Settings, s: State, verdict: Row -> Verdict, p: Place)
    requires Exact(s) && Fair(verdict, s.count.rows) && Settle(settings, s, verdict).Some?
    ensures QuantityAt(Settle(settings, s, verdict).value.stock, p) ==
        QuantityAt(s.stock, p) + PostedAt(s.count.rows, verdict, p)
  {
    ExactKeysAreFree(s, verdict);
    PassMovesStock(settings, s.count.rows, verdict, Book(s.stock, s.ledger), p);
  }

  /** The pass posts a loss at the place. */
  ghost predicate LosesAt(rows: seq<Row>, verdict: Row -> Verdict, p: Place) {
    exists i :: 0 <= i < |rows| && verdict(rows[i]) == PostIt && rows[i].place == p && Variance(rows[i]) < 0.0
  }

  /** A single loss leaves what is reserved exactly where there is a balance: without one there is nothing to check it
      against. */
  lemma LossSparesExactly(settings: Settings, book: Book, i: nat, row: Row)
    requires Variance(row) < 0.0 && i !in book.ledger && PostRow(settings, book, i, row).Some?
    ensures var balance := PostRow(settings, book, i, row).value.stock[row.place];
      balance.quantity >= balance.reserved <==> row.place in book.stock || !settings.allowNegative
  {
    if row.place in book.stock {
      assert book.stock[row.place].quantity + Variance(row) >= book.stock[row.place].reserved;
    }
  }

  lemma {:induction false} PassSparesReserved(settings: Settings, rows: seq<Row>, verdict: Row -> Verdict, book: Book,
        p: Place)
    requires PostRows(settings, rows, verdict, book).Some? && KeysAreFree(rows, verdict, book.ledger)
    requires LosesAt(rows, verdict, p) && (p in book.stock || !settings.allowNegative)
    ensures var stock := PostRows(settings, rows, verdict, book).value.book.stock;
        p in stock && stock[p].quantity >= stock[p].reserved
  {
    var n := |rows| - 1;
    var row := rows[n];
    assert KeysAreFree(rows[..n], verdict, book.ledger);
    if verdict(row) == PostIt { PassLeavesEntry(settings, rows[..n], verdict, book, n); }
    if p in book.stock { PassKeepsPlaces(settings, rows[..n], verdict, book, p); }
    if !(verdict(row) == PostIt && row.place == p && Variance(row) < 0.0) {
      var i :| 0 <= i < |rows| && verdict(rows[i]) == PostIt && rows[i].place == p && Variance(rows[i]) < 0.0;
      assert rows[..n][i] == rows[i];
      PassSparesReserved(settings, rows[..n], verdict, book, p);
    } else {
      LossSparesExactly(settings, PostRows(settings, rows[..n], verdict, book).value.book, n, row);
    }
  }

  lemma {:induction false} PassKeepsPlaces(settings: Settings, rows: seq<Row>, verdict: Row -> Verdict, book: Book,
        p: Place)
    requires PostRows(settings, rows, verdict, book).Some? && p in book.stock
    ensures p in PostRows(settings, rows, verdict, book).value.book.stock
  {
    if |rows| != 0 { PassKeepsPlaces(settings, rows[..|rows| - 1], verdict, book, p); }
  }

  lemma {:induction false} NewPlaceReservesNothing(settings: Settings, rows: seq<Row>, verdict: Row -> Verdict,
        book: Book, p: Place)
    requires PostRows(settings, rows, verdict, book).Some? && p !in book.stock
    ensures var stock := PostRows(settings, rows, verdict, book).value.book.stock;
        p in stock ==> stock[p].reserved == 0.0
  {
    if |rows| != 0 { NewPlaceReservesNothing(settings, rows[..|rows| - 1], verdict, book, p); }
  }

  lemma {:induction false} LossMakesPlace(settings: Settings, rows: seq<Row>, verdict: Row -> Verdict, book: Book,
        p: Place)
    requires PostRows(settings, rows, verdict, book).Some? && KeysAreFree(rows, verdict, book.ledger)
    requires LosesAt(rows, verdict, p)
    ensures p in PostRows(settings, rows, verdict, book).value.book.stock
  {
    var n := |rows| - 1;
    var row := rows[n];
    assert KeysAreFree(rows[..n], verdict, book.ledger);
    if verdict(row) == PostIt { PassLeavesEntry(settings, rows[..n], verdict, book, n); }
    if !(verdict(row) == PostIt && row.place == p && Variance(row) < 0.0) {
      var i :| 0 <= i < |rows| && verdict(rows[i]) == PostIt && rows[i].place == p && Variance(rows[i]) < 0.0;
      assert rows[..n][i] == rows[i];
      LossMakesPlace(settings, rows[..n], verdict, book, p);
    }
  }

  /** A pass that posts losses at a place leaves what is reserved there exactly when a balance existed or the pass's
      differences there do not add up to a loss. */
  lemma LossesSpareReservations(settings: Settings, s: State, verdict: Row -> Verdict, p: Place)
    requires Exact(s) && Fair(verdict, s.count.rows) && Settle(settings, s, verdict).Some?
    requires LosesAt(s.count.rows, verdict, p)
    ensures var stock := Settle(settings, s, verdict).value.stock;
      p in stock && (stock[p].quantity >= stock[p].reserved <==>
          p in s.stock || PostedAt(s.count.rows, verdict, p) >= 0.0)
    ensures !settings.allowNegative ==> p in s.stock || PostedAt(s.count.rows, verdict, p) >= 0.0
  {
    var rows, book := s.count.rows, Book(s.stock, s.ledger);
    ExactKeysAreFree(s, verdict);
    LossMakesPlace(settings, rows, verdict, book, p);
    PassMovesStock(settings, rows, verdict, book, p);
    if p in s.stock || !settings.allowNegative { PassSparesReserved(settings, rows, verdict, book, p); }
    if p !in s.stock { NewPlaceReservesNothing(settings, rows, verdict, book, p); }
  }
}
