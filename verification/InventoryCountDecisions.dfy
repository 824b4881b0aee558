/** What each step of a physical count decides: which rows are taken in, recorded, posted or held back, and what is
    refused. */
module InventoryCountDecisions {
  import opened Basics
  import opened Sorting
  import opened InventoryCount
  import opened InventoryCountProofs

  // ---------------------------------------------------------------- tolerance

  function GroupOf(settings: Settings, product: string): string {
    if product in settings.itemGroups then settings.itemGroups[product] else ""
  }

  predicate AppliesTo(settings: Settings, rule: Rule, product: string) {
    && rule.warehouse in {"", settings.warehouse}
    && rule.itemGroup in {"", GroupOf(settings, product)}
  }

  /** The first active rule for the warehouse and the product's item group. */
  predicate IsFirstRule(settings: Settings, k: nat, product: string) {
    && k < |settings.rules| && AppliesTo(settings, settings.rules[k], product)
    && forall j :: 0 <= j < k ==> !AppliesTo(settings, settings.rules[j], product)
  }

  function Size(x: real): real { if x >= 0.0 then x else 0.0 - x }

  /** The difference is more than the rule's quantity, and more than its percentage of the book quantity; whatever is
      found where nothing was booked is. */
  predicate Exceeds(rule: Rule, variance: real, book: real) {
    && (rule.quantity == 0.0 || Size(variance) > rule.quantity)
    && (book == 0.0 || 100.0 * Size(variance) > rule.percentage * Size(book))
  }

  lemma PercentageOf(a: real, b: real, percentage: real)
    requires b > 0.0
    ensures a / b * 100.0 <= percentage <==> 100.0 * a <= percentage * b
  {
    var share := a / b;
    assert a == share * b;
    if share * 100.0 <= percentage {
      assert share * 100.0 * b <= percentage * b;
    } else {
      assert share * 100.0 * b > percentage * b;
    }
  }

  lemma ToleranceIs(rule: Rule, variance: real, book: real)
    ensures WithinTolerance(rule, variance, book) <==> !Exceeds(rule, variance, book)
  {
    if book != 0.0 { PercentageOf(Abs(variance), Abs(book), rule.percentage); }
  }

  lemma {:induction false} MatchesFirst(settings: Settings, n: nat, product: string)
    requires n <= |settings.rules| && forall j :: 0 <= j < n ==> !AppliesTo(settings, settings.rules[j], product)
    ensures match MatchingRule(settings, settings.rules[n..], product)
      case Some(rule) => exists k: nat :: IsFirstRule(settings, k, product) && settings.rules[k] == rule
      case None => forall k: nat :: !IsFirstRule(settings, k, product)
    decreases |settings.rules| - n
  {
    if n < |settings.rules| {
      assert settings.rules[n..][0] == settings.rules[n] && settings.rules[n..][1..] == settings.rules[n + 1..];
      if AppliesTo(settings, settings.rules[n], product) {
        assert IsFirstRule(settings, n, product);
      } else {
        MatchesFirst(settings, n + 1, product);
      }
    }
  }

  // ---------------------------------------------------------------- what a posting decides

  /** A row that was not counted has none. */
  function Difference(row: Row): real { if row.variance.Some? then row.variance.value else 0.0 }

  /** The difference is beyond the first rule, which asks for a recount that was not made yet. */
  ghost predicate NeedsRecount(settings: Settings, row: Row) {
    exists k: nat :: IsFirstRule(settings, k, row.place.product) && settings.rules[k].recount && row.recounts == 0 &&
        Exceeds(settings.rules[k], Difference(row), row.book)
  }

  ghost predicate NeedsApproval(settings: Settings, row: Row) {
    exists k: nat :: IsFirstRule(settings, k, row.place.product) && settings.rules[k].approval &&
        !(settings.rules[k].recount && row.recounts == 0) && Exceeds(settings.rules[k], Difference(row), row.book)
  }

  ghost function Decided(settings: Settings, row: Row): RowStatus {
    if row.status == Posted || row.status == PendingApproval then row.status
    else if Difference(row) == 0.0 then Posted
    else if NeedsRecount(settings, row) then PendingRecount
    else if NeedsApproval(settings, row) then PendingApproval
    else Posted
  }

  lemma OneFirstRule(settings: Settings, product: string, k: nat, m: nat)
    requires IsFirstRule(settings, k, product) && IsFirstRule(settings, m, product)
    ensures k == m
  {
  }

  lemma JudgesAs(settings: Settings, row: Row)
    ensures After(Judge(settings)(row), row) == row.(status := Decided(settings, row))
  {
    MatchesFirst(settings, 0, row.place.product);
    assert settings.rules[0..] == settings.rules;
    if k: nat :| IsFirstRule(settings, k, row.place.product) {
      ToleranceIs(settings.rules[k], Difference(row), row.book);
      forall m: nat | IsFirstRule(settings, m, row.place.product) ensures m == k {
        OneFirstRule(settings, row.place.product, k, m);
      }
    }
  }

  /** Posting decides every row by the first rule for it: held back for a recount or for approval, or posted. Nothing
      but the status of a row changes. */
  lemma PostingDecides(settings: Settings, s: State)
    requires PostCount(settings, s).Some?
    ensures var rows := PostCount(settings, s).value.count.rows;
      |rows| == |s.count.rows| && forall i :: 0 <= i < |rows| ==>
          rows[i] == s.count.rows[i].(status := Decided(settings, s.count.rows[i]))
  {
    var book := InventoryCount.Book(s.stock, s.ledger);
    PassedRows(settings, s.count.rows, Judge(settings), book);
    forall i | 0 <= i < |s.count.rows|
      ensures PostRows(settings, s.count.rows, Judge(settings), book).value.rows[i] ==
          s.count.rows[i].(status := Decided(settings, s.count.rows[i]))
    {
      JudgesAs(settings, s.count.rows[i]);
    }
  }

  /** An approval posts the rows that wait for it, and no other. */
  lemma ApprovalDecides(settings: Settings, s: State)
    requires ApproveVariance(settings, s).Some?
    ensures var rows := ApproveVariance(settings, s).value.count.rows;
      |rows| == |s.count.rows| && forall i :: 0 <= i < |rows| ==>
          rows[i] == if s.count.rows[i].status == PendingApproval then s.count.rows[i].(status := Posted)
            else s.count.rows[i]
  {
    PassedRows(settings, s.count.rows, Approve(), InventoryCount.Book(s.stock, s.ledger));
  }

  // ---------------------------------------------------------------- what refuses a pass

  function ReservedAt(stock: map<Place, Balance>, p: Place): real { if p in stock then stock[p].reserved else 0.0 }

  predicate PostsAt(rows: seq<Row>, verdict: Row -> Verdict, p: Place) {
    exists j :: 0 <= j < |rows| && verdict(rows[j]) == PostIt && rows[j].place == p
  }

  /** Row `i` cannot be posted on top of those before it: a loss takes reserved units, a serial number is not one unit,
      or the stock would become negative where it may not. */
  predicate CannotPost(settings: Settings, stock: map<Place, Balance>, rows: seq<Row>, verdict: Row -> Verdict, i: nat)
    requires i < |rows|
  {
    var p, v := rows[i].place, Difference(rows[i]);
    var quantity := QuantityAt(stock, p) + PostedAt(rows[..i], verdict, p) + v;
    || (v < 0.0 && (p in stock || PostsAt(rows[..i], verdict, p)) && quantity < ReservedAt(stock, p))
    || (p.serial != "" && Size(v) != 1.0)
    || (quantity < 0.0 && !settings.allowNegative)
  }

  ghost predicate SomeCannotPost(settings: Settings, stock: map<Place, Balance>, rows: seq<Row>,
        verdict: Row -> Verdict)
  {
    exists i: nat :: i < |rows| && verdict(rows[i]) == PostIt && CannotPost(settings, stock, rows, verdict, i)
  }

  /** The rows about to be posted have a difference that the ledger does not have yet. */
  ghost predicate Unbooked(rows: seq<Row>, verdict: Row -> Verdict, ledger: map<nat, real>) {
    forall i :: 0 <= i < |rows| && verdict(rows[i]) == PostIt ==> i !in ledger && Variance(rows[i]) != 0.0
  }

  lemma {:induction false} PlacesAfter(settings: Settings, rows: seq<Row>, verdict: Row -> Verdict,
        book: InventoryCount.Book, p: Place)
    requires PostRows(settings, rows, verdict, book).Some? && Unbooked(rows, verdict, book.ledger)
    ensures var stock := PostRows(settings, rows, verdict, book).value.book.stock;
      && (p in stock <==> p in book.stock || PostsAt(rows, verdict, p))
      && ReservedAt(stock, p) == ReservedAt(book.stock, p)
  {
    if |rows| > 0 {
      var n := |rows| - 1;
      PlacesAfter(settings, rows[..n], verdict, book, p);
      PassLeavesEntry(settings, rows[..n], verdict, book, n);
      if PostsAt(rows[..n], verdict, p) {
        var j :| 0 <= j < n && verdict(rows[..n][j]) == PostIt && rows[..n][j].place == p;
        assert rows[j] == rows[..n][j];
      }
      if PostsAt(rows, verdict, p) && !(verdict(rows[n]) == PostIt && rows[n].place == p) {
        var j :| 0 <= j < |rows| && verdict(rows[j]) == PostIt && rows[j].place == p;
        assert rows[..n][j] == rows[j];
      }
    }
  }

  lemma LastRowPosts(settings: Settings, rows: seq<Row>, verdict: Row -> Verdict, book: InventoryCount.Book)
    requires |rows| > 0 && Unbooked(rows, verdict, book.ledger)
    requires PostRows(settings, rows[..|rows| - 1], verdict, book).Some?
    ensures var n := |rows| - 1;
      PostRows(settings, rows, verdict, book).None? <==>
        verdict(rows[n]) == PostIt && CannotPost(settings, book.stock, rows, verdict, n)
  {
    var n := |rows| - 1;
    PlacesAfter(settings, rows[..n], verdict, book, rows[n].place);
    PassMovesStock(settings, rows[..n], verdict, book, rows[n].place);
    PassLeavesEntry(settings, rows[..n], verdict, book, n);
  }

  lemma {:induction false} PassIsRefusedExactly(settings: Settings, rows: seq<Row>, verdict: Row -> Verdict,
        book: InventoryCount.Book)
    requires Unbooked(rows, verdict, book.ledger)
    ensures PostRows(settings, rows, verdict, book).None? <==> SomeCannotPost(settings, book.stock, rows, verdict)
  {
    if |rows| > 0 {
      var n := |rows| - 1;
      PassIsRefusedExactly(settings, rows[..n], verdict, book);
      if PostRows(settings, rows[..n], verdict, book).Some? { LastRowPosts(settings, rows, verdict, book); }
      OneMoreCannotPost(settings, book.stock, rows, verdict);
    }
  }

  lemma OneMoreCannotPost(settings: Settings, stock: map<Place, Balance>, rows: seq<Row>, verdict: Row -> Verdict)
    requires |rows| > 0
    ensures var n := |rows| - 1;
      SomeCannotPost(settings, stock, rows, verdict) <==>
        SomeCannotPost(settings, stock, rows[..n], verdict) ||
        (verdict(rows[n]) == PostIt && CannotPost(settings, stock, rows, verdict, n))
  {
    var n := |rows| - 1;
    forall i: nat | i < n
      ensures CannotPost(settings, stock, rows[..n], verdict, i) == CannotPost(settings, stock, rows, verdict, i)
    {
      assert rows[..n][..i] == rows[..i];
    }
    if i: nat :| i < n && verdict(rows[..n][i]) == PostIt && CannotPost(settings, stock, rows[..n], verdict, i) {
      assert verdict(rows[i]) == PostIt && CannotPost(settings, stock, rows, verdict, i);
    }
    if i: nat :| i < |rows| && verdict(rows[i]) == PostIt && CannotPost(settings, stock, rows, verdict, i) {
      if i < n {
        assert verdict(rows[..n][i]) == PostIt && CannotPost(settings, stock, rows[..n], verdict, i);
      }
    }
  }

  /** A pass is refused if and only if one of its rows cannot be posted on top of those before it. */
  lemma SettleIsRefusedExactly(settings: Settings, s: State, verdict: Row -> Verdict)
    requires Exact(s) && Fair(verdict, s.count.rows)
    ensures Settle(settings, s, verdict).None? <==> SomeCannotPost(settings, s.stock, s.count.rows, verdict)
  {
    ExactKeysAreFree(s, verdict);
    PassIsRefusedExactly(settings, s.count.rows, verdict, InventoryCount.Book(s.stock, s.ledger));
  }

  // ---------------------------------------------------------------- taking stock

  function HasStock(stock: map<Place, Balance>): Place -> bool {
    (p: Place) => p in stock && stock[p].quantity > 0.0
  }

  function PlacesOf(rows: seq<Row>): (r: seq<Place>)
    ensures |r| == |rows|
  {
    seq(|rows|, i requires 0 <= i < |rows| => rows[i].place)
  }

  /** One open row with the book quantity for each balance in stock, in the order of the query. */
  ghost predicate AreTaken(stock: map<Place, Balance>, found: seq<Place>, rows: seq<Row>) {
    && PlacesOf(rows) == Filter(found, HasStock(stock))
    && (forall i :: 0 <= i < |rows| ==> rows[i].place in stock)
    && (forall i :: 0 <= i < |rows| ==>
        rows[i] == Row(rows[i].place, stock[rows[i].place].quantity, None, None, Open, 0, ""))
  }

  lemma {:induction false} RowsAreTaken(stock: map<Place, Balance>, found: seq<Place>)
    ensures AreTaken(stock, found, SnapshotRows(stock, found))
  {
    if |found| > 0 {
      var n := |found| - 1;
      var before, rows := SnapshotRows(stock, found[..n]), SnapshotRows(stock, found);
      RowsAreTaken(stock, found[..n]);
      FilterLast(found, HasStock(stock));
      assert PlacesOf(rows) == PlacesOf(before) + if HasStock(stock)(found[n]) then [found[n]] else [];
    }
  }

  /** The stock and the books are as they were. */
  predicate SameStock(s: State, t: State) { t.stock == s.stock && t.ledger == s.ledger && t.mirror == s.mirror }

  ghost predicate TakenIn(s: State, t: State, found: seq<Place>, bins: set<string>) {
    && AreTaken(s.stock, found, t.count.rows) && t.count.status == Counting
    && t.bins == s.bins + bins && t.count.blocked == bins - s.bins && SameStock(s, t)
  }

  /** A draft takes in every balance in stock that the query lists, and blocks their bins; it is refused when there is
      none, or a bin of one has open tasks. */
  lemma SnapshotTakesExactly(s: State, found: seq<Place>, busy: set<string>)
    ensures var places := Filter(found, HasStock(s.stock)); var bins := set p <- places | p.bin != "" :: p.bin;
      var t := Snapshot(s, found, busy);
      && (t.Some? <==> s.count.status == Draft && places != [] && bins * busy == {})
      && (t.Some? ==> TakenIn(s, t.value, found, bins))
  {
    var rows := SnapshotRows(s.stock, found);
    RowsAreTaken(s.stock, found);
    var places := PlacesOf(rows);
    assert BinsOf(rows) == set p <- places | p.bin != "" :: p.bin by {
      forall b | b in BinsOf(rows) ensures exists p <- places :: p.bin != "" && p.bin == b {
        var i :| 0 <= i < |rows| && rows[i].place.bin != "" && rows[i].place.bin == b;
        assert places[i] in places;
      }
      forall p | p in places && p.bin != "" ensures p.bin in BinsOf(rows) {
        var i :| 0 <= i < |places| && places[i] == p;
        assert rows[i].place.bin == p.bin;
      }
    }
  }

  // ---------------------------------------------------------------- recording

  /** The entry of a row is refused: a negative quantity, a serial number that is not none or one, or a recount by the
      one who counted first where that may not be. */
  predicate MayNotRecord(settings: Settings, row: Row, counted: real, user: string) {
    || counted < 0.0
    || (row.place.serial != "" && counted !in {0.0, 1.0})
    || (settings.differentUser && row.recounts > 0 && row.countedBy == user)
  }

  function Recorded(row: Row, counted: real, user: string): Row {
    Row(row.place, row.book, Some(counted), Some(counted - row.book), Counted, row.recounts, user)
  }

  ghost predicate SomeMayNotRecord(settings: Settings, rows: seq<Row>, counts: map<nat, real>, user: string) {
    exists i: nat :: i < |rows| && i in counts && MayNotRecord(settings, rows[i], counts[i], user)
  }

  lemma {:induction false} RecordIsRefusedExactly(settings: Settings, rows: seq<Row>, counts: map<nat, real>,
        user: string)
    ensures RecordRows(settings, rows, counts, user).None? <==> SomeMayNotRecord(settings, rows, counts, user)
  {
    if |rows| > 0 {
      var n := |rows| - 1;
      RecordIsRefusedExactly(settings, rows[..n], counts, user);
      if i: nat :| i < n && i in counts && MayNotRecord(settings, rows[..n][i], counts[i], user) {
        assert MayNotRecord(settings, rows[i], counts[i], user);
      }
      if i: nat :| i < |rows| && i in counts && MayNotRecord(settings, rows[i], counts[i], user) {
        if i < n { assert MayNotRecord(settings, rows[..n][i], counts[i], user); }
      }
    }
  }

  ghost predicate SomeOpen(rows: seq<Row>) { exists i :: 0 <= i < |rows| && rows[i].status == Open }

  ghost predicate RecordedIn(s: State, t: State, counts: map<nat, real>, user: string) {
    && t == s.(count := s.count.(rows := t.count.rows, status := t.count.status))
    && |t.count.rows| == |s.count.rows|
    && (forall i :: 0 <= i < |s.count.rows| ==>
        t.count.rows[i] == if i in counts then Recorded(s.count.rows[i], counts[i], user) else s.count.rows[i])
    && t.count.status == if SomeOpen(t.count.rows) then Counting else AllCounted
  }

  predicate MayRecord(s: State) { s.count.status in {Counting, AllCounted} }

  /** Recording counts the named rows, whatever their status, and leaves the others; the count is complete when no row
      is open. */
  lemma RecordCountsExactly(settings: Settings, s: State, counts: map<nat, real>, user: string)
    ensures var t := Record(settings, s, counts, user);
      && (t.Some? <==> MayRecord(s) && !SomeMayNotRecord(settings, s.count.rows, counts, user))
      && (t.Some? ==> RecordedIn(s, t.value, counts, user))
  {
    RecordIsRefusedExactly(settings, s.count.rows, counts, user);
    if Record(settings, s, counts, user).Some? { RecordedRows(settings, s.count.rows, counts, user); }
  }

  ghost predicate FoundIn(s: State, t: State, place: Place, quantity: real, newly: set<string>) {
    && t.count.rows == s.count.rows + [Recorded(OpenRow(place, 0.0), quantity, "")]
    && t.count.status == (if SomeOpen(s.count.rows) then s.count.status else AllCounted)
    && t.bins == s.bins + newly && t.count.blocked == s.count.blocked + newly && SameStock(s, t)
  }

  /** Stock found is one more row, counted with its whole quantity as the difference; its bin is blocked if it was
      not. */
  lemma FoundIsAddedExactly(s: State, place: Place, quantity: real)
    ensures var t := AddFound(s, place, quantity); var newly := {place.bin} - {""} - s.bins;
      && (t.Some? <==> MayRecord(s) && quantity > 0.0 && (place.serial == "" || quantity == 1.0))
      && (t.Some? ==> FoundIn(s, t.value, place, quantity, newly))
  {
    if AddFound(s, place, quantity).Some? {
      var rows := AddFound(s, place, quantity).value.count.rows;
      if Any(s.count.rows, Open) {
        var i :| 0 <= i < |s.count.rows| && s.count.rows[i].status == Open;
        assert rows[i].status == Open;
      }
      if Any(rows, Open) {
        var i :| 0 <= i < |rows| && rows[i].status == Open;
        assert i < |s.count.rows|;
      }
    }
  }

  /** A recount opens the rows that wait for one, counts it, and forgets what was counted; no other row changes. */
  lemma RecountReopensExactly(s: State)
    ensures var rows := RequestRecount(s).count.rows;
      |rows| == |s.count.rows| && forall i :: 0 <= i < |rows| ==> var row := s.count.rows[i];
        rows[i] == if row.status != PendingRecount then row
          else Row(row.place, row.book, None, None, Open, row.recounts + 1, row.countedBy)
  {
  }

  /** A count is cancelled unless it is posted or cancelled already, and its own blocks are lifted. */
  lemma CancelEndsExactly(s: State)
    ensures CancelCount(s).Some? <==> s.count.status !in {AllPosted, Cancelled}
    ensures CancelCount(s).Some? ==>
        CancelCount(s).value == s.(count := s.count.(status := Cancelled), bins := s.bins - s.count.blocked)
  {
  }

  // ---------------------------------------------------------------- what a status tells

  ghost predicate AllIn(rows: seq<Row>, statuses: set<RowStatus>) {
    forall i :: 0 <= i < |rows| ==> rows[i].status in statuses
  }

  /** Over every run of a count: when it is counted, no row waits for a count or a recount; under review, every row is
      decided; it is posted exactly when every row is; and no row is recounted twice. */
  lemma StatusTells(settings: Settings, stock: map<Place, Balance>, bins: set<string>, steps: seq<Step>)
    ensures var c := Run(settings, NewCount(stock, bins), steps).count;
      && (c.status == AllCounted ==> AllIn(c.rows, {Counted, PendingApproval, Posted}))
      && (c.status == UnderReview ==> AllIn(c.rows, {PendingRecount, PendingApproval, Posted}))
      && (c.rows != [] ==> (c.status == AllPosted <==> AllIn(c.rows, {Posted})))
      && (forall i :: 0 <= i < |c.rows| ==> c.rows[i].recounts <= 1)
  {
    RunIsSane(settings, NewCount(stock, bins), steps);
    var c := Run(settings, NewCount(stock, bins), steps).count;
    if c.status == AllCounted || c.status == UnderReview {
      forall i | 0 <= i < |c.rows|
        ensures c.status == AllCounted ==> c.rows[i].status != Open && c.rows[i].status != PendingRecount
        ensures c.status == UnderReview ==> c.rows[i].status != Open && c.rows[i].status != Counted
      {
        if c.rows[i].status == Open { assert Any(c.rows, Open); }
        if c.rows[i].status == Counted { assert Any(c.rows, Counted); }
        if c.rows[i].status == PendingRecount { assert Any(c.rows, PendingRecount); }
      }
    }
  }
}
