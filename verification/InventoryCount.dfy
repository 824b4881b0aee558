/** Physical inventory: counting, one recount, approval, and posting the differences in several passes. */
module InventoryCount {
  import opened Basics

  /** What a balance is kept for; an empty bin or serial number is none. */
  datatype Place = Place(product: string, bin: string, unit: string, batch: string, serial: string, stockType: string)

  datatype Balance = Balance(quantity: real, reserved: real)

  datatype RowStatus = Open | Counted | PendingRecount | PendingApproval | Posted

  datatype Row = Row(place: Place, book: real, counted: Option<real>, variance: Option<real>, status: RowStatus,
      recounts: nat, countedBy: string)

  datatype CountStatus = Draft | Counting | AllCounted | UnderReview | AllPosted | Cancelled

  /** `blocked`: the bins this count closed for removal itself. */
  datatype Count = Count(status: CountStatus, rows: seq<Row>, blocked: set<string>)

  /** The ERP side of a posted row. */
  datatype Mirror = Mirror(row: nat, amount: real)

  /** `ledger` holds the count's entries under their idempotency keys, one for each row number; `bins` are the bins
      blocked for removal. */
  datatype State = State(count: Count, stock: map<Place, Balance>, ledger: map<nat, real>, mirror: seq<Mirror>,
      bins: set<string>)

  /** An empty warehouse or item group matches all. */
  datatype Rule = Rule(warehouse: string, itemGroup: string, percentage: real, quantity: real, recount: bool,
      approval: bool)

  /** `rules` are the active ones in the order of their priority. */
  datatype Settings = Settings(warehouse: string, rules: seq<Rule>, itemGroups: map<string, string>,
      differentUser: bool, allowNegative: bool)

  function Variance(row: Row): real { row.variance.GetOr(0.0) }

  function Abs(x: real): real { if x < 0.0 then -x else x }

  function BinsOf(rows: seq<Row>): set<string> {
    set i | 0 <= i < |rows| && rows[i].place.bin != "" :: rows[i].place.bin
  }

  predicate Any(rows: seq<Row>, status: RowStatus) { exists i :: 0 <= i < |rows| && rows[i].status == status }

  predicate EveryRowPosted(rows: seq<Row>) { forall i :: 0 <= i < |rows| ==> rows[i].status == Posted }

  // ---------------------------------------------------------------- counting

  function OpenRow(place: Place, book: real): Row { Row(place, book, None, None, Open, 0, "") }

  /** `found`: the balances in scope as the query lists them; `busy`: bins with open warehouse tasks. */
  function SnapshotRows(stock: map<Place, Balance>, found: seq<Place>): (rows: seq<Row>) {
    var n := |found| - 1;
    if |found| == 0 then []
    else
      var last := if found[n] in stock &&
          stock[found[n]].quantity > 0.0 then [OpenRow(found[n], stock[found[n]].quantity)] else [];
      SnapshotRows(stock, found[..n]) + last
  }

  function Snapshot(s: State, found: seq<Place>, busy: set<string>): Option<State> {
    var rows := SnapshotRows(s.stock, found);
    var bins := BinsOf(rows);
    if s.count.status != Draft || |rows| == 0 || bins * busy != {} then None
    else Some(s.(count := Count(Counting, rows, bins - s.bins), bins := s.bins + bins))
  }

  predicate IsOpenForRecording(c: Count) { c.status == Counting || c.status == AllCounted }

  /** Stock found where the book shows none. */
  function AddFound(s: State, place: Place, quantity: real): Option<State> {
    if !IsOpenForRecording(s.count) || quantity <= 0.0 || (place.serial != "" && quantity != 1.0) then None
    else
      var rows := s.count.rows + [Row(place, 0.0, Some(quantity), Some(quantity), Counted, 0, "")];
      var newlyBlocked := if place.bin != "" && place.bin !in s.bins then {place.bin} else {};
      Some(s.(count := Count(if Any(rows, Open) then s.count.status
          else AllCounted, rows, s.count.blocked + newlyBlocked), bins := s.bins + newlyBlocked))
  }

  function RecordRow(settings: Settings, row: Row, counted: real, user: string): Option<Row> {
    if counted < 0.0 then None
    else if row.place.serial != "" && counted != 0.0 && counted != 1.0 then None
    else if row.recounts > 0 && row.countedBy == user && settings.differentUser then None
    else Some(row.(countedBy := user, counted := Some(counted), variance := Some(counted - row.book),
        status := Counted))
  }

  /** The rows named in `counts`, in order. */
  function RecordRows(settings: Settings, rows: seq<Row>, counts: map<nat, real>, user: string): (r: Option<seq<Row>>)
    ensures r.Some? ==> |r.value| == |rows|
  {
    var n := |rows| - 1;
    if |rows| == 0 then Some([])
    else
      match RecordRows(settings, rows[..n], counts, user)
      case None => None
      case Some(before) =>
        if n !in counts then Some(before + [rows[n]])
        else
          match RecordRow(settings, rows[n], counts[n], user)
          case None => None
          case Some(row) => Some(before + [row])
  }

  function Record(settings: Settings, s: State, counts: map<nat, real>, user: string): Option<State> {
    if !IsOpenForRecording(s.count) then None
    else
      match RecordRows(settings, s.count.rows, counts, user)
      case None => None
      case Some(rows) =>
        Some(s.(count := s.count.(rows := rows, status := if Any(rows, Open) then Counting else AllCounted)))
  }

  // ---------------------------------------------------------------- posting

  function MatchingRule(settings: Settings, rules: seq<Rule>, product: string): Option<Rule>
    decreases |rules|
  {
    var itemGroup := if product in settings.itemGroups then settings.itemGroups[product] else "";
    if |rules| == 0 then None
    else if (rules[0].warehouse == "" || rules[0].warehouse == settings.warehouse) &&
        (rules[0].itemGroup == "" || rules[0].itemGroup == itemGroup) then Some(rules[0])
    else MatchingRule(settings, rules[1..], product)
  }

  /** Whatever is found where nothing was booked is beyond the percentage. */
  predicate WithinTolerance(rule: Rule, variance: real, book: real) {
    if rule.quantity != 0.0 && Abs(variance) <= rule.quantity then true
    else if book == 0.0 then false
    else Abs(variance) / Abs(book) * 100.0 <= rule.percentage
  }

  datatype Verdict = Skip | NothingToPost | PostIt | AskRecount | AskApproval

  function Judge(settings: Settings): Row -> Verdict {
    (row: Row) =>
      if row.status == Posted || row.status == PendingApproval then Skip
      else if Variance(row) == 0.0 then NothingToPost
      else
        match MatchingRule(settings, settings.rules, row.place.product)
        case None => PostIt
        case Some(rule) =>
          if WithinTolerance(rule, Variance(row), row.book) then PostIt
          else if rule.recount && row.recounts == 0 then AskRecount
          else if rule.approval then AskApproval
          else PostIt
  }

  function Approve(): Row -> Verdict { (row: Row) => if row.status == PendingApproval then PostIt else Skip }

  function After(verdict: Verdict, row: Row): Row {
    match verdict
    case Skip => row
    case NothingToPost => row.(status := Posted)
    case PostIt => row.(status := Posted)
    case AskRecount => row.(status := PendingRecount)
    case AskApproval => row.(status := PendingApproval)
  }

  datatype Book = Book(stock: map<Place, Balance>, ledger: map<nat, real>)

  /** The difference of a row goes into the ledger, unless its key is there already; a loss may not take reserved
      units. */
  function PostRow(settings: Settings, book: Book, i: nat, row: Row): Option<Book> {
    var v, p := Variance(row), row.place;
    var balance := if p in book.stock then book.stock[p] else Balance(0.0, 0.0);
    if v < 0.0 && p in book.stock && balance.quantity + v < balance.reserved then None
    else if v == 0.0 || i in book.ledger then Some(book)
    else if p.serial != "" && Abs(v) != 1.0 then None
    else if balance.quantity + v < 0.0 && !settings.allowNegative then None
    else Some(Book(book.stock[p := balance.(quantity := balance.quantity + v)], book.ledger[i := v]))
  }

  datatype Pass = Pass(rows: seq<Row>, book: Book, posted: seq<Mirror>)

  /** The rows one after the other; one that cannot be posted refuses the whole pass. */
  function PostRows(settings: Settings, rows: seq<Row>, verdict: Row -> Verdict, book: Book): (r: Option<Pass>)
    ensures r.Some? ==> |r.value.rows| == |rows|
  {
    var n := |rows| - 1;
    if |rows| == 0 then Some(Pass([], book, []))
    else
      match PostRows(settings, rows[..n], verdict, book)
      case None => None
      case Some(before) =>
        var row := rows[n];
        var next := before.rows + [After(verdict(row), row)];
        if verdict(row) != PostIt then Some(before.(rows := next))
        else
          match PostRow(settings, before.book, n, row)
          case None => None
          case Some(booked) => Some(Pass(next, booked, before.posted + [Mirror(n, Variance(row))]))
  }

  function Recompute(rows: seq<Row>, status: CountStatus): CountStatus {
    if EveryRowPosted(rows) then AllPosted
    else if Any(rows, PendingRecount) || Any(rows, PendingApproval) then UnderReview
    else status
  }

  function Release(s: State): State { s.(bins := s.bins - s.count.blocked) }

  function Settle(settings: Settings, s: State, verdict: Row -> Verdict): Option<State> {
    match PostRows(settings, s.count.rows, verdict, Book(s.stock, s.ledger))
    case None => None
    case Some(pass) =>
      var status := Recompute(pass.rows, s.count.status);
      var next := State(s.count.(status := status, rows := pass.rows), pass.book.stock, pass.book.ledger,
          s.mirror + pass.posted, s.bins);
      Some(if status == AllPosted then Release(next) else next)
  }

  function PostCount(settings: Settings, s: State): Option<State> {
    if s.count.status != AllCounted then None else Settle(settings, s, Judge(settings))
  }

  function ApproveVariance(settings: Settings, s: State): Option<State> {
    if s.count.status != UnderReview then None else Settle(settings, s, Approve())
  }

  function Reopened(row: Row): Row {
    if row.status == PendingRecount then row.(recounts := row.recounts + 1, counted := None, variance := None,
        status := Open) else row
  }

  function ReopenedRows(rows: seq<Row>): (r: seq<Row>)
    ensures |r| == |rows|
  {
    seq(|rows|, i requires 0 <= i < |rows| => Reopened(rows[i]))
  }

  /** Nothing looks at the status of the count here. */
  function RequestRecount(s: State): State {
    var rows := ReopenedRows(s.count.rows);
    s.(count := s.count.(rows := rows, status := if Any(rows, Open) then Counting else s.count.status))
  }

  function CancelCount(s: State): Option<State> {
    if s.count.status == AllPosted || s.count.status == Cancelled then None
    else Some(Release(s).(count := s.count.(status := Cancelled)))
  }

  // ---------------------------------------------------------------- runs

  datatype Step =
    | TakeSnapshot(found: seq<Place>, busy: set<string>)
    | FindMore(place: Place, quantity: real)
    | RecordCounts(counts: map<nat, real>, user: string)
    | Post
    | ApproveDifferences
    | AskForRecount
    | Cancel
    | StockMoves(stock: map<Place, Balance>)

  /** A refused step changes nothing. Stock also moves outside the count. */
  function Perform(settings: Settings, s: State, step: Step): State {
    match step
    case TakeSnapshot(found, busy) => Snapshot(s, found, busy).GetOr(s)
    case FindMore(place, quantity) => AddFound(s, place, quantity).GetOr(s)
    case RecordCounts(counts, user) => Record(settings, s, counts, user).GetOr(s)
    case Post => PostCount(settings, s).GetOr(s)
    case ApproveDifferences => ApproveVariance(settings, s).GetOr(s)
    case AskForRecount => RequestRecount(s)
    case Cancel => CancelCount(s).GetOr(s)
    case StockMoves(stock) => s.(stock := stock)
  }

  function Run(settings: Settings, s: State, steps: seq<Step>): State
    decreases |steps|
  {
    if |steps| == 0 then s else Run(settings, Perform(settings, s, steps[0]), steps[1..])
  }

  // ---------------------------------------------------------------- the document in place

  class PhysicalCount {
    const settings: Settings
    var status: CountStatus
    var rows: seq<Row>
    var blockedBins: set<string>
    var stock: map<Place, Balance>
    var ledger: map<nat, real>
    var mirror: seq<Mirror>
    var bins: set<string>

    function Current(): State
      reads this
    {
      State(Count(status, rows, blockedBins), stock, ledger, mirror, bins)
    }

    constructor (settings: Settings, stock: map<Place, Balance>, bins: set<string>)
      ensures this.settings == settings && Current() == State(Count(Draft, [], {}), stock, map[], [], bins)
    {
      this.settings, this.status, this.rows, this.blockedBins := settings, Draft, [], {};
      this.stock, this.ledger, this.mirror, this.bins := stock, map[], [], bins;
    }

    method SnapshotCount(found: seq<Place>, busy: set<string>) returns (ok: bool)
      modifies this
      ensures ok == Snapshot(old(Current()), found, busy).Some?
      ensures Current() == Snapshot(old(Current()), found, busy).GetOr(old(Current()))
    {
      if status != Draft { return false; }
      var items: seq<Row> := [];
      for k := 0 to |found|
        invariant items == SnapshotRows(stock, found[..k]) && Current() == old(Current())
      {
        assert found[..k + 1][..k] == found[..k];
        if found[k] in stock && stock[found[k]].quantity > 0.0 {
          items := items + [OpenRow(found[k], stock[found[k]].quantity)];
        }
      }
      assert found[..|found|] == found;
      if |items| == 0 || BinsOf(items) * busy != {} { return false; }
      rows, blockedBins := items, BinsOf(items) - bins;
      bins, status := bins + BinsOf(items), Counting;
      ok := true;
    }

    method AddFoundLine(place: Place, quantity: real) returns (ok: bool)
      modifies this
      ensures ok == AddFound(old(Current()), place, quantity).Some?
      ensures Current() == AddFound(old(Current()), place, quantity).GetOr(old(Current()))
    {
      if status != Counting && status != AllCounted { return false; }
      if quantity <= 0.0 || (place.serial != "" && quantity != 1.0) { return false; }
      rows := rows + [Row(place, 0.0, Some(quantity), Some(quantity), Counted, 0, "")];
      if place.bin != "" && place.bin !in bins {
        blockedBins, bins := blockedBins + {place.bin}, bins + {place.bin};
      }
      if !Any(rows, Open) { status := AllCounted; }
      ok := true;
    }

    method RecordCounts(counts: map<nat, real>, user: string) returns (ok: bool)
      modifies this
      ensures ok == Record(settings, old(Current()), counts, user).Some?
      ensures Current() == Record(settings, old(Current()), counts, user).GetOr(old(Current()))
    {
      if status != Counting && status != AllCounted { return false; }
      var recorded := [];
      for i := 0 to |rows|
        invariant RecordRows(settings, rows[..i], counts, user) == Some(recorded) && Current() == old(Current())
      {
        assert rows[..i + 1][..i] == rows[..i];
        if i in counts {
          var row := RecordRow(settings, rows[i], counts[i], user);
          if row.None? {
            RecordRefused(settings, rows, i + 1, counts, user);
            return false;
          }
          recorded := recorded + [row.value];
        } else {
          recorded := recorded + [rows[i]];
        }
      }
      assert rows[..|rows|] == rows;
      rows, status := recorded, if Any(recorded, Open) then Counting else AllCounted;
      ok := true;
    }

    method PostAll() returns (ok: bool)
      modifies this
      ensures ok == PostCount(settings, old(Current())).Some?
      ensures Current() == PostCount(settings, old(Current())).GetOr(old(Current()))
    {
      if status != AllCounted { return false; }
      ok := PostPass(Judge(settings));
    }

    method ApproveAll() returns (ok: bool)
      modifies this
      ensures ok == ApproveVariance(settings, old(Current())).Some?
      ensures Current() == ApproveVariance(settings, old(Current())).GetOr(old(Current()))
    {
      if status != UnderReview { return false; }
      ok := PostPass(Approve());
    }

    method PostPass(verdict: Row -> Verdict) returns (ok: bool)
      modifies this
      ensures ok == Settle(settings, old(Current()), verdict).Some?
      ensures Current() == Settle(settings, old(Current()), verdict).GetOr(old(Current()))
    {
      var book, items, posted := Book(stock, ledger), [], [];
      for i := 0 to |rows|
        invariant PostRows(settings, rows[..i], verdict, Book(stock, ledger)) == Some(Pass(items, book, posted))
        invariant Current() == old(Current())
      {
        assert rows[..i + 1][..i] == rows[..i];
        if verdict(rows[i]) == PostIt {
          var booked := PostRow(settings, book, i, rows[i]);
          if booked.None? {
            PassRefused(settings, rows, i + 1, verdict, book := Book(stock, ledger));
            return false;
          }
          book, posted := booked.value, posted + [Mirror(i, Variance(rows[i]))];
        }
        items := items + [After(verdict(rows[i]), rows[i])];
      }
      assert rows[..|rows|] == rows;
      stock, ledger, rows, mirror := book.stock, book.ledger, items, mirror + posted;
      status := Recompute(rows, status);
      if status == AllPosted { bins := bins - blockedBins; }
      ok := true;
    }

    method RequestRecounts()
      modifies this
      ensures Current() == RequestRecount(old(Current()))
    {
      var items: seq<Row> := [];
      for i := 0 to |rows|
        invariant items == ReopenedRows(rows[..i]) && Current() == old(Current())
      {
        items := items + [Reopened(rows[i])];
      }
      assert rows[..|rows|] == rows;
      rows := items;
      if Any(rows, Open) { status := Counting; }
    }

    method CancelDocument() returns (ok: bool)
      modifies this
      ensures ok == CancelCount(old(Current())).Some? && Current() == CancelCount(old(Current())).GetOr(old(Current()))
    {
      if status == AllPosted || status == Cancelled { return false; }
      bins, status := bins - blockedBins, Cancelled;
      ok := true;
    }
  }

  lemma {:induction false} RecordRefused(settings: Settings, rows: seq<Row>, i: nat, counts: map<nat, real>,
        user: string)
    requires i <= |rows| && RecordRows(settings, rows[..i], counts, user).None?
    ensures RecordRows(settings, rows, counts, user).None?
    decreases |rows| - i
  {
    if i == |rows| {
      assert rows[..i] == rows;
    } else {
      assert rows[..i + 1][..i] == rows[..i];
      RecordRefused(settings, rows, i + 1, counts, user);
    }
  }

  lemma {:induction false} PassRefused(settings: Settings, rows: seq<Row>, i: nat, verdict: Row -> Verdict, book: Book)
    requires i <= |rows| && PostRows(settings, rows[..i], verdict, book).None?
    ensures PostRows(settings, rows, verdict, book).None?
    decreases |rows| - i
  {
    if i == |rows| {
      assert rows[..i] == rows;
    } else {
      assert rows[..i + 1][..i] == rows[..i];
      PassRefused(settings, rows, i + 1, verdict, book);
    }
  }
}
