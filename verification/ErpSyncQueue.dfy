/** Posting WMS results to ERPNext: at once, or through a queue of sync logs with retries. */
module ErpSyncQueue {
  import opened Basics

  datatype DocType = GoodsReceipt | GoodsIssue | StockAdjustment | OtherDocument

  /** A WMS document. */
  datatype Document = Document(doctype: DocType, name: string)

  datatype DocStatus = Draft | Submitted | Reversed

  /** Forward and reversal of the reversible documents; everything else is recorded, some of it only once. */
  datatype Operation = Forward | Reversal | Record(name: string, once: bool)

  /** An ERPNext document: what it was made from, and whether it is still submitted. */
  datatype Posting = Posting(operation: Operation, payload: string, live: bool)

  datatype LogStatus = Queued | Running | Failed | Done | Cancelled

  datatype Log = Log(doc: Document, operation: Operation, payload: string, status: LogStatus, attempts: nat,
      nextRetryAt: Option<int>, createdAt: int)

  /** `history` lists the logs whose operation took effect, in order. */
  datatype State = State(status: map<Document, DocStatus>, logs: seq<Log>, erp: map<Document, seq<Posting>>,
      history: seq<nat>)

  const MAX_ATTEMPTS: nat := 12

  predicate IsPending(l: Log) { l.status == Queued || l.status == Running || l.status == Failed }

  function StatusOf(s: State, doc: Document): DocStatus { if doc in s.status then s.status[doc] else Draft }

  function PostingsOf(erp: map<Document, seq<Posting>>, doc: Document): seq<Posting> {
    if doc in erp then erp[doc] else []
  }

  predicate HasPosting(postings: seq<Posting>, operation: Operation) {
    exists i :: 0 <= i < |postings| && postings[i].operation == operation
  }

  function CancelForwards(postings: seq<Posting>): seq<Posting> {
    seq(|postings|, i requires 0 <= i < |postings| =>
      if postings[i].operation == Forward then postings[i].(live := false) else postings[i])
  }

  /** Goods receipts and issues look at the document's status before they post; a stock adjustment does not. */
  predicate ChecksStatus(doc: Document) { doc.doctype == GoodsReceipt || doc.doctype == GoodsIssue }

  /** What an operation leaves in ERPNext. */
  function Apply(doc: Document, status: DocStatus, postings: seq<Posting>, operation: Operation,
        payload: string): seq<Posting>
  {
    match operation
    case Forward =>
      if ChecksStatus(doc) && status != Submitted then postings
      else if HasPosting(postings, Forward) then postings
      else postings + [Posting(Forward, payload, true)]
    case Reversal => CancelForwards(postings)
    case Record(name, once) =>
      if once && HasPosting(postings, operation) then postings else postings + [Posting(operation, payload, true)]
  }

  function Perform(s: State, doc: Document, operation: Operation, payload: string): State {
    s.(erp := s.erp[doc := Apply(doc, StatusOf(s, doc), PostingsOf(s.erp, doc), operation, payload)])
  }

  predicate IsPendingForward(l: Log, doc: Document) { l.doc == doc && l.operation == Forward && IsPending(l) }

  predicate ForwardIsPending(logs: seq<Log>, doc: Document) {
    exists i :: 0 <= i < |logs| && IsPendingForward(logs[i], doc)
  }

  function CancelPendingForwards(logs: seq<Log>, doc: Document): seq<Log> {
    seq(|logs|, i requires 0 <= i < |logs| => if IsPendingForward(logs[i], doc) then logs[i].(status := Cancelled)
        else logs[i])
  }

  /** dispatch: run at once, cancel what has not reached ERPNext yet, or queue. */
  function Dispatch(s: State, queued: bool, doc: Document, operation: Operation, payload: string, now: int): State {
    if !queued then Perform(s, doc, operation, payload)
    else if operation == Reversal && ForwardIsPending(s.logs, doc) then s.(logs := CancelPendingForwards(s.logs, doc))
    else s.(logs := s.logs + [Log(doc, operation, payload, Queued, 0, None, now)])
  }

  predicate EarlierIsPending(logs: seq<Log>, n: nat)
    requires n < |logs|
  {
    exists i :: 0 <= i < n && logs[i].doc == logs[n].doc && (logs[i].status == Queued || logs[i].status == Failed)
  }

  function PowerOfTwo(n: nat): nat { if n == 0 then 1 else 2 * PowerOfTwo(n - 1) }

  /** Minutes until the next attempt. */
  function Backoff(attempts: nat): nat
    requires attempts > 0
  {
    var minutes := 5 * PowerOfTwo(attempts - 1);
    if minutes <= 360 then minutes else 360
  }

  /** run: one attempt at log `n`; `fails` says whether the ERPNext posting raises. */
  function RunLog(s: State, n: nat, fails: bool, now: int): State {
    if n >= |s.logs| || (s.logs[n].status != Queued && s.logs[n].status != Failed) then s
    else if EarlierIsPending(s.logs, n) then s.(logs := s.logs[n := s.logs[n].(nextRetryAt := Some(now + 2))])
    else
      var l := s.logs[n];
      if fails then
        s.(logs := s.logs[n := l.(status := Failed, attempts := l.attempts + 1,
            nextRetryAt := Some(now + Backoff(l.attempts + 1)))])
      else
        Perform(s, l.doc, l.operation, l.payload).(logs := s.logs[n := l.(status := Done, attempts := l.attempts + 1)],
            history := s.history + [n])
  }

  predicate IsDue(l: Log, now: int) {
    || (l.status == Failed && l.attempts < MAX_ATTEMPTS && (l.nextRetryAt.None? || l.nextRetryAt.value <= now))
    || ((l.status == Queued || l.status == Running) && l.createdAt <= now - 10)
  }

  /** The logs the scheduler picks up, oldest first. */
  function DueLogs(logs: seq<Log>, from: nat, now: int): seq<nat>
    requires from <= |logs|
    decreases |logs| - from
  {
    if from == |logs| then [] else (if IsDue(logs[from], now) then [from] else []) + DueLogs(logs, from + 1, now)
  }

  function Unstick(s: State, n: nat): State {
    if n < |s.logs| && s.logs[n].status == Running then s.(logs := s.logs[n := s.logs[n].(status := Failed)]) else s
  }

  /** retry_due over the picked logs; `outcomes[k]` says whether attempt k fails. */
  function RetryAll(s: State, picked: seq<nat>, outcomes: seq<bool>, now: int): State
    decreases |picked|
  {
    if |picked| == 0 then s
    else
      var fails := if |outcomes| > 0 then outcomes[0] else true;
      RetryAll(RunLog(Unstick(s, picked[0]), picked[0], fails, now), picked[1..], if |outcomes| > 0 then outcomes[1..]
          else [], now)
  }

  function FirstFew(picked: seq<nat>): seq<nat> { if |picked| <= 200 then picked else picked[..200] }

  function RetryDue(s: State, outcomes: seq<bool>, now: int): State {
    RetryAll(s, FirstFew(DueLogs(s.logs, 0, now)), outcomes, now)
  }

  /** retry_now: refused unless the log is failed or queued. */
  function RetryNow(s: State, n: nat, fails: bool, now: int): State {
    if n >= |s.logs| || (s.logs[n].status != Failed && s.logs[n].status != Queued) then s
    else RunLog(s.(logs := s.logs[n := s.logs[n].(status := Failed, nextRetryAt := None)]), n, fails, now)
  }

  /** The queue as it stands in the database, and the services that change it. */
  class SyncQueue {
    var status: map<Document, DocStatus>
    var logs: seq<Log>
    var erp: map<Document, seq<Posting>>
    var history: seq<nat>

    ghost function Current(): State
      reads this
    {
      State(status, logs, erp, history)
    }

    constructor ()
      ensures Current() == State(map[], [], map[], [])
    {
      status, logs, erp, history := map[], [], map[], [];
    }

    method PerformOperation(doc: Document, operation: Operation, payload: string)
      modifies this
      ensures Current() == Perform(old(Current()), doc, operation, payload)
    {
      var now := if doc in status then status[doc] else Draft;
      erp := erp[doc := Apply(doc, now, PostingsOf(erp, doc), operation, payload)];
    }

    method DispatchOperation(queued: bool, doc: Document, operation: Operation, payload: string, now: int)
      modifies this
      ensures Current() == Dispatch(old(Current()), queued, doc, operation, payload, now)
    {
      if !queued {
        PerformOperation(doc, operation, payload);
        return;
      }
      if operation == Reversal {
        var pending := CancelForwardsOf(doc);
        if pending { return; }
      }
      logs := logs + [Log(doc, operation, payload, Queued, 0, None, now)];
    }

    method CancelForwardsOf(doc: Document) returns (pending: bool)
      modifies this
      ensures pending <==> ForwardIsPending(old(logs), doc)
      ensures Current() == old(Current()).(logs := if pending then CancelPendingForwards(old(logs), doc) else old(logs))
    {
      pending := false;
      var before := logs;
      for n := 0 to |before|
        invariant |logs| == |before| && Current() == old(Current()).(logs := logs)
        invariant pending <==> exists i :: 0 <= i < n && IsPendingForward(before[i], doc)
        invariant forall i :: 0 <= i < n ==> logs[i] == CancelPendingForwards(before, doc)[i]
        invariant forall i :: n <= i < |before| ==> logs[i] == before[i]
      {
        if IsPendingForward(logs[n], doc) {
          logs := logs[n := logs[n].(status := Cancelled)];
          pending := true;
        }
      }
      assert logs == CancelPendingForwards(before, doc);
      assert !pending ==> logs == before;
    }

    method Run(n: nat, fails: bool, now: int)
      modifies this
      ensures Current() == RunLog(old(Current()), n, fails, now)
    {
      if n >= |logs| || (logs[n].status != Queued && logs[n].status != Failed) { return; }
      var l := logs[n];
      var earlier := false;
      for i := 0 to n
        invariant earlier <==>
            exists k :: 0 <= k < i && logs[k].doc == l.doc && (logs[k].status == Queued || logs[k].status == Failed)
      {
        if logs[i].doc == l.doc && (logs[i].status == Queued || logs[i].status == Failed) { earlier := true; }
      }
      if earlier {
        logs := logs[n := l.(nextRetryAt := Some(now + 2))];
      } else if fails {
        logs := logs[n := l.(status := Failed, attempts := l.attempts + 1,
            nextRetryAt := Some(now + Backoff(l.attempts + 1)))];
      } else {
        PerformOperation(l.doc, l.operation, l.payload);
        logs := logs[n := l.(status := Done, attempts := l.attempts + 1)];
        history := history + [n];
      }
    }

    method RetryDueLogs(outcomes: seq<bool>, now: int)
      modifies this
      ensures Current() == RetryDue(old(Current()), outcomes, now)
    {
      var picked := FirstFew(DueLogs(logs, 0, now));
      var left := outcomes;
      for k := 0 to |picked|
        invariant RetryAll(old(Current()), picked, outcomes, now) == RetryAll(Current(), picked[k..], left, now)
      {
        assert picked[k..][0] == picked[k] && picked[k..][1..] == picked[k + 1..];
        var n := picked[k];
        if n < |logs| && logs[n].status == Running {
          logs := logs[n := logs[n].(status := Failed)];
        }
        var fails := if |left| > 0 then left[0] else true;
        Run(n, fails, now);
        left := if |left| > 0 then left[1..] else [];
      }
    }

    method RetryLogNow(n: nat, fails: bool, now: int)
      modifies this
      ensures Current() == RetryNow(old(Current()), n, fails, now)
    {
      if n >= |logs| || (logs[n].status != Failed && logs[n].status != Queued) { return; }
      logs := logs[n := logs[n].(status := Failed, nextRetryAt := None)];
      Run(n, fails, now);
    }
  }
}
