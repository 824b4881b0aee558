/** Order of the queued postings, and equality with synchronous posting once the queue has drained. */
module ErpSyncQueueProofs {
  import opened Basics
  import opened Sorting
  import opened ErpSyncQueue

  // ---------------------------------------------------------------- order

  datatype Step =
    | DoDispatch(queued: bool, doc: Document, operation: Operation, payload: string, now: int)
    | DoRun(n: nat, fails: bool, now: int)
    | DoRetryDue(outcomes: seq<bool>, now: int)
    | DoRetryNow(n: nat, fails: bool, now: int)

  function Act(s: State, step: Step): State {
    match step
    case DoDispatch(queued, doc, operation, payload, now) => Dispatch(s, queued, doc, operation, payload, now)
    case DoRun(n, fails, now) => RunLog(s, n, fails, now)
    case DoRetryDue(outcomes, now) => RetryDue(s, outcomes, now)
    case DoRetryNow(n, fails, now) => RetryNow(s, n, fails, now)
  }

  function ActAll(s: State, steps: seq<Step>): State
    decreases |steps|
  {
    if |steps| == 0 then s else ActAll(Act(s, steps[0]), steps[1..])
  }

  ghost predicate HistoryIsDone(s: State) {
    forall k :: 0 <= k < |s.history| ==> s.history[k] < |s.logs| && s.logs[s.history[k]].status == Done
  }

  ghost predicate DoneIsInHistory(s: State) {
    forall n: nat :: n < |s.logs| && s.logs[n].status == Done ==> n in s.history
  }

  ghost predicate HistoryInOrder(s: State)
    requires HistoryIsDone(s)
  {
    forall a, b :: 0 <= a < b < |s.history| ==> InOrder(s, s.history[a], s.history[b])
  }

  ghost predicate InOrder(s: State, m: nat, n: nat)
    requires m < |s.logs| && n < |s.logs|
  {
    m != n && (s.logs[m].doc == s.logs[n].doc ==> m < n)
  }

  ghost predicate NothingPendingBefore(s: State) {
    forall i, j :: 0 <= i < j < |s.logs| && s.logs[i].doc == s.logs[j].doc && s.logs[j].status == Done ==>
        !IsPending(s.logs[i])
  }

  ghost predicate NeverRunning(s: State) {
    forall n :: 0 <= n < |s.logs| ==> s.logs[n].status != Running
  }

  /** The history holds exactly the done logs, each once, those of one document in creation order; nothing pending
      precedes a done log of its document. */
  ghost predicate Ordered(s: State) {
    NeverRunning(s) && HistoryIsDone(s) && DoneIsInHistory(s) && HistoryInOrder(s) && NothingPendingBefore(s)
  }

  /** What is done or cancelled stays so, a log keeps what it is for, and the history only grows. */
  ghost predicate Extends(s: State, t: State) {
    && |s.logs| <= |t.logs| && s.history <= t.history
    && forall n :: 0 <= n < |s.logs| ==> Continues(s.logs[n], t.logs[n])
  }

  ghost predicate Continues(l: Log, m: Log) {
    && m.doc == l.doc && m.operation == l.operation && m.payload == l.payload
    && (!IsPending(l) ==> m.status == l.status)
  }

  /** A step in which nothing takes effect: logs may wait, fail, be cancelled or be added. */
  lemma QuietStep(s: State, t: State)
    requires Ordered(s) && Extends(s, t) && NeverRunning(t) && t.history == s.history
    requires forall n :: 0 <= n < |s.logs| && t.logs[n].status == Done ==> s.logs[n].status == Done
    requires forall n :: |s.logs| <= n < |t.logs| ==> t.logs[n].status == Queued
    ensures Ordered(t)
  {
    forall k | 0 <= k < |t.history| ensures t.history[k] < |t.logs| && t.logs[t.history[k]].status == Done {
      assert Continues(s.logs[s.history[k]], t.logs[s.history[k]]);
    }
    forall a, b | 0 <= a < b < |t.history| ensures InOrder(t, t.history[a], t.history[b]) {
      assert InOrder(s, s.history[a], s.history[b]);
      assert Continues(s.logs[s.history[a]], t.logs[s.history[a]]);
      assert Continues(s.logs[s.history[b]], t.logs[s.history[b]]);
    }
    forall i, j | 0 <= i < j < |t.logs| && t.logs[i].doc == t.logs[j].doc && t.logs[j].status == Done
      ensures !IsPending(t.logs[i])
    {
      assert Continues(s.logs[i], t.logs[i]) && Continues(s.logs[j], t.logs[j]);
    }
  }

  /** A step in which log `n` takes effect: it is the oldest pending one of its document. */
  lemma EffectiveStep(s: State, t: State, n: nat, l: Log)
    requires Ordered(s) && n < |s.logs| && IsPending(s.logs[n]) && !EarlierIsPending(s.logs, n)
    requires t.logs == s.logs[n := l] && Continues(s.logs[n], l) && l.status == Done
    requires t.history == s.history + [n]
    ensures Ordered(t)
  {
    assert NeverRunning(t) && HistoryIsDone(t);
    forall m: nat | m < |t.logs| && t.logs[m].status == Done ensures m in t.history {
      if m == n { assert t.history[|s.history|] == n; }
    }
    forall a, b | 0 <= a < b < |t.history| ensures InOrder(t, t.history[a], t.history[b]) {
      var m := s.history[a];
      if b == |s.history| {
        assert s.logs[m].status == Done;
        if n < m && s.logs[n].doc == s.logs[m].doc { assert false; }
      } else {
        assert InOrder(s, s.history[a], s.history[b]);
      }
    }
    forall i, j | 0 <= i < j < |t.logs| && t.logs[i].doc == t.logs[j].doc && t.logs[j].status == Done
      ensures !IsPending(t.logs[i])
    {
      if j == n && IsPending(s.logs[i]) { assert false; }
    }
  }

  lemma RunKeepsOrder(s: State, n: nat, fails: bool, now: int)
    requires Ordered(s)
    ensures Ordered(RunLog(s, n, fails, now)) && Extends(s, RunLog(s, n, fails, now))
  {
    var t := RunLog(s, n, fails, now);
    if n < |s.logs| && (s.logs[n].status == Queued || s.logs[n].status == Failed) && !EarlierIsPending(s.logs, n) &&
        !fails {
      EffectiveStep(s, t, n, t.logs[n]);
    } else {
      QuietStep(s, t);
    }
  }

  lemma DispatchKeepsOrder(s: State, queued: bool, doc: Document, operation: Operation, payload: string, now: int)
    requires Ordered(s)
    ensures Ordered(Dispatch(s, queued, doc, operation, payload, now))
    ensures Extends(s, Dispatch(s, queued, doc, operation, payload, now))
  {
    QuietStep(s, Dispatch(s, queued, doc, operation, payload, now));
  }

  lemma {:induction false} RetryAllKeepsOrder(s: State, picked: seq<nat>, outcomes: seq<bool>, now: int)
    requires Ordered(s)
    ensures Ordered(RetryAll(s, picked, outcomes, now)) && Extends(s, RetryAll(s, picked, outcomes, now))
    decreases |picked|
  {
    if |picked| > 0 {
      var fails := if |outcomes| > 0 then outcomes[0] else true;
      assert Unstick(s, picked[0]) == s;
      RunKeepsOrder(s, picked[0], fails, now);
      var next := RunLog(s, picked[0], fails, now);
      RetryAllKeepsOrder(next, picked[1..], if |outcomes| > 0 then outcomes[1..] else [], now);
      ExtendsIsTransitive(s, next, RetryAll(s, picked, outcomes, now));
    }
  }

  lemma ExtendsIsTransitive(s: State, t: State, u: State)
    requires Extends(s, t) && Extends(t, u)
    ensures Extends(s, u)
  {
    forall n | 0 <= n < |s.logs| ensures Continues(s.logs[n], u.logs[n]) {
      assert Continues(s.logs[n], t.logs[n]) && Continues(t.logs[n], u.logs[n]);
    }
  }

  lemma ActKeepsOrder(s: State, step: Step)
    requires Ordered(s)
    ensures Ordered(Act(s, step)) && Extends(s, Act(s, step))
  {
    match step
    case DoDispatch(queued, doc, operation, payload, now) =>
      DispatchKeepsOrder(s, queued, doc, operation, payload, now);
    case DoRun(n, fails, now) => RunKeepsOrder(s, n, fails, now);
    case DoRetryDue(outcomes, now) => RetryAllKeepsOrder(s, FirstFew(DueLogs(s.logs, 0, now)), outcomes, now);
    case DoRetryNow(n, fails, now) =>
      if n < |s.logs| && (s.logs[n].status == Failed || s.logs[n].status == Queued) {
        var t := s.(logs := s.logs[n := s.logs[n].(status := Failed, nextRetryAt := None)]);
        QuietStep(s, t);
        RunKeepsOrder(t, n, fails, now);
        ExtendsIsTransitive(s, t, RunLog(t, n, fails, now));
      }
  }

  /** Every interleaving of dispatches, attempts, failures and retries keeps the order. */
  lemma {:induction false} EveryRunKeepsOrder(s: State, steps: seq<Step>)
    requires Ordered(s)
    ensures Ordered(ActAll(s, steps)) && Extends(s, ActAll(s, steps))
    decreases |steps|
  {
    if |steps| > 0 {
      ActKeepsOrder(s, steps[0]);
      EveryRunKeepsOrder(Act(s, steps[0]), steps[1..]);
      ExtendsIsTransitive(s, Act(s, steps[0]), ActAll(s, steps));
    }
  }

  /** When a posting takes effect, every earlier one of its document has taken effect before it, or never will. */
  lemma NothingOvertakes(s: State, i: nat, k: nat)
    requires Ordered(s) && k < |s.history| && i < s.history[k] && s.logs[i].doc == s.logs[s.history[k]].doc
    ensures s.logs[i].status == Cancelled || exists h :: 0 <= h < k && s.history[h] == i
  {
    var j := s.history[k];
    assert s.logs[j].status == Done;
    if s.logs[i].status != Cancelled {
      assert !IsPending(s.logs[i]);
      assert i in s.history;
      var h :| 0 <= h < |s.history| && s.history[h] == i;
      assert h < k by { if k < h { assert false; } }
    }
  }

  /** A log cancelled by its reversal never takes effect, in any continuation. */
  lemma CancelledNeverRuns(s: State, steps: seq<Step>, n: nat)
    requires Ordered(s) && n < |s.logs| && s.logs[n].status == Cancelled
    ensures n !in ActAll(s, steps).history
  {
    EveryRunKeepsOrder(s, steps);
    assert Continues(s.logs[n], ActAll(s, steps).logs[n]);
  }

  // ---------------------------------------------------------------- equality with synchronous posting

  /** What happens to documents in the warehouse, and the background work of the queue. */
  datatype Event =
    | Post(doc: Document, payload: string)
    | Reverse(doc: Document)
    | Note(doc: Document, name: string, once: bool, payload: string)
    | Attempt(n: nat, fails: bool)
    | RetryPass(outcomes: seq<bool>)
    | RetryByHand(n: nat, fails: bool)

  /** A document is submitted once and reversed once; the rest only records. */
  function Happen(s: State, queued: bool, e: Event, now: int): State {
    match e
    case Post(doc, payload) =>
      if doc.doctype == OtherDocument || StatusOf(s, doc) != Draft then s
      else Dispatch(s.(status := s.status[doc := Submitted]), queued, doc, Forward, payload, now)
    case Reverse(doc) =>
      if doc.doctype == OtherDocument || StatusOf(s, doc) != Submitted then s
      else Dispatch(s.(status := s.status[doc := Reversed]), queued, doc, Reversal, "", now)
    case Note(doc, name, once, payload) =>
      if doc.doctype != OtherDocument then s else Dispatch(s, queued, doc, Record(name, once), payload, now)
    case Attempt(n, fails) => RunLog(s, n, fails, now)
    case RetryPass(outcomes) => RetryDue(s, outcomes, now)
    case RetryByHand(n, fails) => RetryNow(s, n, fails, now)
  }

  function HappenAll(s: State, queued: bool, events: seq<(Event, int)>): State
    decreases |events|
  {
    if |events| == 0 then s else HappenAll(Happen(s, queued, events[0].0, events[0].1), queued, events[1..])
  }

  const EMPTY := State(map[], [], map[], [])

  function Live(postings: seq<Posting>): seq<Posting> { Filter(postings, (p: Posting) => p.live) }

  /** What ERPNext will hold for a document when its pending logs among the first `n` have run. */
  function Replay(logs: seq<Log>, n: nat, doc: Document, postings: seq<Posting>): seq<Posting>
    requires n <= |logs|
  {
    if n == 0 then postings
    else
      var before := Replay(logs, n - 1, doc, postings);
      var l := logs[n - 1];
      if l.doc == doc && IsPending(l) then Apply(doc, Draft, before, l.operation, l.payload) else before
  }

  ghost predicate PendingOf(s: State, doc: Document, n: nat) {
    n < |s.logs| && s.logs[n].doc == doc && IsPending(s.logs[n])
  }

  /** How the queued system stands to the synchronous one, document by document. */
  ghost predicate Agrees(q: State, t: State, doc: Document) {
    var mine, theirs := PostingsOf(q.erp, doc), PostingsOf(t.erp, doc);
    if doc.doctype == OtherDocument then
      && (forall n: nat :: PendingOf(q, doc, n) ==> q.logs[n].operation.Record?)
      && Replay(q.logs, |q.logs|, doc, mine) == theirs
    else
      && OnlyForwards(mine) && OnlyForwards(theirs)
      && match StatusOf(q, doc)
         case Draft => mine == [] && theirs == [] && forall n: nat :: !PendingOf(q, doc, n)
         case Submitted =>
           && (forall n: nat :: PendingOf(q, doc, n) ==>
               q.logs[n].operation == Forward && mine == [] && theirs == [Posting(Forward, q.logs[n].payload, true)])
           && (forall m: nat, n: nat :: PendingOf(q, doc, m) && PendingOf(q, doc, n) ==> m == n)
           && ((forall n: nat :: !PendingOf(q, doc, n)) ==> mine == theirs)
         case Reversed =>
           && (forall n: nat :: PendingOf(q, doc, n) ==> q.logs[n].operation == Reversal)
           && ((forall n: nat :: !PendingOf(q, doc, n)) ==> AllDead(mine))
           && AllDead(theirs)
  }

  ghost predicate OnlyForwards(postings: seq<Posting>) {
    forall i :: 0 <= i < |postings| ==> postings[i].operation == Forward
  }

  ghost predicate AllDead(postings: seq<Posting>) {
    forall i :: 0 <= i < |postings| ==> !postings[i].live
  }

  ghost predicate Simulates(q: State, t: State) {
    && q.status == t.status && t.logs == [] && NeverRunning(q)
    && forall doc :: Agrees(q, t, doc)
  }

  lemma {:induction false} ReplayIgnoresOthers(logs: seq<Log>, other: seq<Log>, n: nat, doc: Document,
        postings: seq<Posting>)
    requires n <= |logs| && n <= |other|
    requires forall i ::
        0 <= i < n ==> (logs[i].doc == doc && IsPending(logs[i]) <==> other[i].doc == doc && IsPending(other[i]))
    requires forall i ::
        0 <= i < n && logs[i].doc == doc && IsPending(logs[i]) ==>
          logs[i].operation == other[i].operation && logs[i].payload == other[i].payload
    ensures Replay(logs, n, doc, postings) == Replay(other, n, doc, postings)
  {
    if n > 0 { ReplayIgnoresOthers(logs, other, n - 1, doc, postings); }
  }

  /** Running the oldest pending log of a document now, or replaying it later, comes to the same. */
  lemma {:induction false} OldestFirst(logs: seq<Log>, i: nat, l: Log, n: nat, doc: Document, postings: seq<Posting>)
    requires i < |logs| && n <= |logs|
    requires logs[i].doc == doc && IsPending(logs[i]) && !IsPending(l)
    requires forall k :: 0 <= k < i && logs[k].doc == doc ==> !IsPending(logs[k])
    ensures n <= i ==> Replay(logs, n, doc, postings) == postings
    ensures n > i ==>
        Replay(logs[i := l], n, doc, Apply(doc, Draft, postings, logs[i].operation, logs[i].payload)) ==
            Replay(logs, n, doc, postings)
  {
    var applied := Apply(doc, Draft, postings, logs[i].operation, logs[i].payload);
    if n > 0 {
      OldestFirst(logs, i, l, n - 1, doc, postings);
      if n - 1 == i { NothingToReplay(logs[i := l], i, doc, applied); }
    }
  }

  lemma {:induction false} NothingToReplay(logs: seq<Log>, n: nat, doc: Document, postings: seq<Posting>)
    requires n <= |logs| && forall k :: 0 <= k < n && logs[k].doc == doc ==> !IsPending(logs[k])
    ensures Replay(logs, n, doc, postings) == postings
  {
    if n > 0 { NothingToReplay(logs, n - 1, doc, postings); }
  }

  /** A document whose own pending logs and postings are left alone agrees as before. */
  lemma Unaffected(q: State, q': State, t: State, t': State, doc: Document)
    requires Agrees(q, t, doc) && StatusOf(q', doc) == StatusOf(q, doc)
    requires PostingsOf(q'.erp, doc) == PostingsOf(q.erp, doc) && PostingsOf(t'.erp, doc) == PostingsOf(t.erp, doc)
    requires SamePending(q, q', doc)
    ensures Agrees(q', t', doc)
  {
    forall n: nat | PendingOf(q', doc, n)
      ensures PendingOf(q, doc, n) && q.logs[n].operation == q'.logs[n].operation
      ensures q.logs[n].payload == q'.logs[n].payload
    {
      assert SameLog(q, q', doc, n);
    }
    forall n: nat | PendingOf(q, doc, n) ensures PendingOf(q', doc, n) { assert SameLog(q, q', doc, n); }
    if doc.doctype == OtherDocument {
      var mine := PostingsOf(q.erp, doc);
      forall i | 0 <= i < |q.logs| ensures SameLog(q, q', doc, i) {}
      ReplayIgnoresOthers(q.logs, q'.logs, |q.logs|, doc, mine);
      ReplayTail(q'.logs, |q.logs|, |q'.logs|, doc, mine);
    }
  }

  ghost predicate SameLog(q: State, q': State, doc: Document, n: nat) {
    && (PendingOf(q, doc, n) <==> PendingOf(q', doc, n))
    && (PendingOf(q, doc, n) ==> q.logs[n].operation == q'.logs[n].operation && q.logs[n].payload == q'.logs[n].payload)
  }

  ghost predicate SamePending(q: State, q': State, doc: Document) {
    |q.logs| <= |q'.logs| && forall n: nat :: SameLog(q, q', doc, n)
  }

  lemma {:induction false} ReplayTail(logs: seq<Log>, m: nat, n: nat, doc: Document, postings: seq<Posting>)
    requires m <= n <= |logs| && forall k :: m <= k < n && logs[k].doc == doc ==> !IsPending(logs[k])
    ensures Replay(logs, n, doc, postings) == Replay(logs, m, doc, postings)
  {
    if m < n { ReplayTail(logs, m, n - 1, doc, postings); }
  }

  lemma CancelledForwardsAreDead(postings: seq<Posting>)
    requires OnlyForwards(postings)
    ensures OnlyForwards(CancelForwards(postings)) && AllDead(CancelForwards(postings))
  {
  }

  /** The log that takes effect is the oldest pending one of its document, and the only step that changes what ERPNext
      holds. */
  lemma EffectSimulates(q: State, t: State, n: nat, now: int)
    requires Simulates(q, t)
    requires n < |q.logs| && IsPending(q.logs[n]) && !EarlierIsPending(q.logs, n)
    ensures Agrees(RunLog(q, n, false, now), t, q.logs[n].doc)
  {
    var l, q' := q.logs[n], RunLog(q, n, false, now);
    var doc, mine := l.doc, PostingsOf(q.erp, l.doc);
    assert Agrees(q, t, doc) && PendingOf(q, doc, n);
    assert PostingsOf(q'.erp, doc) == Apply(doc, StatusOf(q, doc), mine, l.operation, l.payload);
    forall m: nat ensures PendingOf(q', doc, m) <==> m != n && PendingOf(q, doc, m) {}
    if doc.doctype == OtherDocument {
      forall k | 0 <= k < n && q.logs[k].doc == doc ensures !IsPending(q.logs[k]) {}
      OldestFirst(q.logs, n, q'.logs[n], |q.logs|, doc, mine);
    } else if StatusOf(q, doc) == Reversed {
      CancelledForwardsAreDead(mine);
    }
  }

  lemma RunSimulates(q: State, t: State, n: nat, fails: bool, now: int)
    requires Simulates(q, t)
    ensures Simulates(RunLog(q, n, fails, now), t)
  {
    var q' := RunLog(q, n, fails, now);
    forall doc ensures Agrees(q', t, doc) {
      assert Agrees(q, t, doc);
      var effective := n < |q.logs| && (q.logs[n].status == Queued || q.logs[n].status == Failed) &&
          !EarlierIsPending(q.logs, n) && !fails;
      if effective && q.logs[n].doc == doc {
        EffectSimulates(q, t, n, now);
      } else {
        Unaffected(q, q', t, t, doc);
      }
    }
  }

  lemma {:induction false} RetryAllSimulates(q: State, t: State, picked: seq<nat>, outcomes: seq<bool>, now: int)
    requires Simulates(q, t)
    ensures Simulates(RetryAll(q, picked, outcomes, now), t)
    decreases |picked|
  {
    if |picked| > 0 {
      var fails := if |outcomes| > 0 then outcomes[0] else true;
      assert Unstick(q, picked[0]) == q;
      RunSimulates(q, t, picked[0], fails, now);
      RetryAllSimulates(RunLog(q, picked[0], fails, now), t, picked[1..], if |outcomes| > 0 then outcomes[1..] else [],
          now);
    }
  }

  lemma RetryNowSimulates(q: State, t: State, n: nat, fails: bool, now: int)
    requires Simulates(q, t)
    ensures Simulates(RetryNow(q, n, fails, now), t)
  {
    if n < |q.logs| && (q.logs[n].status == Failed || q.logs[n].status == Queued) {
      var q' := q.(logs := q.logs[n := q.logs[n].(status := Failed, nextRetryAt := None)]);
      forall doc ensures Agrees(q', t, doc) {
        assert Agrees(q, t, doc);
        Unaffected(q, q', t, t, doc);
      }
      RunSimulates(q', t, n, fails, now);
    }
  }

  /** With no logs the synchronous system has nothing to run. */
  lemma NothingToRun(t: State, e: Event, now: int)
    requires t.logs == [] && (e.Attempt? || e.RetryPass? || e.RetryByHand?)
    ensures Happen(t, false, e, now) == t
  {
  }

  lemma PostSimulates(q: State, t: State, doc: Document, payload: string, now: int)
    requires Simulates(q, t)
    ensures Simulates(Happen(q, true, Post(doc, payload), now), Happen(t, false, Post(doc, payload), now))
  {
    if doc.doctype != OtherDocument && StatusOf(q, doc) == Draft {
      var q', t' := Happen(q, true, Post(doc, payload), now), Happen(t, false, Post(doc, payload), now);
      forall d ensures Agrees(q', t', d) {
        assert Agrees(q, t, d);
        if d != doc {
          Unaffected(q, q', t, t', d);
        } else {
          PostedDocument(q, q', t, t', doc, payload, now);
        }
      }
    }
  }

  lemma PostedDocument(q: State, q': State, t: State, t': State, doc: Document, payload: string, now: int)
    requires doc.doctype != OtherDocument && StatusOf(q, doc) == Draft == StatusOf(t, doc) && Agrees(q, t, doc)
    requires q' == Happen(q, true, Post(doc, payload), now) && t' == Happen(t, false, Post(doc, payload), now)
    ensures Agrees(q', t', doc)
  {
    var n := |q.logs|;
    assert q'.logs == q.logs + [Log(doc, Forward, payload, Queued, 0, None, now)];
    forall m: nat ensures PendingOf(q', doc, m) <==> m == n { assert !PendingOf(q, doc, m); }
    assert PostingsOf(t'.erp, doc) == [Posting(Forward, payload, true)];
    assert PostingsOf(q'.erp, doc) == [] && StatusOf(q', doc) == Submitted;
    assert PendingOf(q', doc, n);
  }

  lemma ReverseSimulates(q: State, t: State, doc: Document, now: int)
    requires Simulates(q, t)
    ensures Simulates(Happen(q, true, Reverse(doc), now), Happen(t, false, Reverse(doc), now))
  {
    if doc.doctype != OtherDocument && StatusOf(q, doc) == Submitted {
      var q', t' := Happen(q, true, Reverse(doc), now), Happen(t, false, Reverse(doc), now);
      assert Agrees(q, t, doc);
      CancelledForwardsAreDead(PostingsOf(t.erp, doc));
      forall d ensures Agrees(q', t', d) {
        assert Agrees(q, t, d);
        if d != doc {
          Unaffected(q, q', t, t', d);
        } else {
          ReversedDocument(q, q', doc, now);
        }
      }
    }
  }

  /** Either the pending forward is cancelled and nothing was posted, or the reversal is queued behind what was
      posted. */
  lemma ReversedDocument(q: State, q': State, doc: Document, now: int)
    requires doc.doctype != OtherDocument && StatusOf(q, doc) == Submitted
    requires q' == Happen(q, true, Reverse(doc), now)
    requires forall n: nat :: PendingOf(q, doc, n) ==> q.logs[n].operation == Forward && PostingsOf(q.erp, doc) == []
    ensures forall n: nat :: PendingOf(q', doc, n) ==> q'.logs[n].operation == Reversal
    ensures (forall n: nat :: !PendingOf(q', doc, n)) ==> PostingsOf(q'.erp, doc) == []
  {
    if ForwardIsPending(q.logs, doc) {
      var i :| 0 <= i < |q.logs| && IsPendingForward(q.logs[i], doc);
      assert PendingOf(q, doc, i);
      forall n: nat
        ensures !PendingOf(q', doc, n)
      {
        if PendingOf(q', doc, n) { assert PendingOf(q, doc, n); assert false; }
      }
    } else {
      forall n: nat | PendingOf(q', doc, n) ensures q'.logs[n].operation == Reversal {
        if n < |q.logs| { assert PendingOf(q, doc, n); assert IsPendingForward(q.logs[n], doc); assert false; }
      }
      assert PendingOf(q', doc, |q.logs|);
    }
  }

  lemma NoteSimulates(q: State, t: State, doc: Document, name: string, once: bool, payload: string, now: int)
    requires Simulates(q, t)
    ensures Simulates(Happen(q, true, Note(doc, name, once, payload), now),
        Happen(t, false, Note(doc, name, once, payload), now))
  {
    if doc.doctype == OtherDocument {
      var q', t' := Happen(q, true, Note(doc, name, once, payload), now), Happen(t, false,
          Note(doc, name, once, payload), now);
      forall d ensures Agrees(q', t', d) {
        assert Agrees(q, t, d);
        if d != doc {
          Unaffected(q, q', t, t', d);
        } else {
          ReplayIgnoresOthers(q.logs, q'.logs, |q.logs|, doc, PostingsOf(q.erp, doc));
          forall n: nat | PendingOf(q', doc, n)
            ensures q'.logs[n].operation.Record?
          {
            if n < |q.logs| { assert PendingOf(q, doc, n); }
          }
        }
      }
    }
  }

  lemma HappenSimulates(q: State, t: State, e: Event, now: int)
    requires Simulates(q, t)
    ensures Simulates(Happen(q, true, e, now), Happen(t, false, e, now))
  {
    match e
    case Post(doc, payload) => PostSimulates(q, t, doc, payload, now);
    case Reverse(doc) => ReverseSimulates(q, t, doc, now);
    case Note(doc, name, once, payload) => NoteSimulates(q, t, doc, name, once, payload, now);
    case Attempt(n, fails) =>
      NothingToRun(t, e, now);
      RunSimulates(q, t, n, fails, now);
    case RetryPass(outcomes) =>
      NothingToRun(t, e, now);
      RetryAllSimulates(q, t, FirstFew(DueLogs(q.logs, 0, now)), outcomes, now);
    case RetryByHand(n, fails) =>
      NothingToRun(t, e, now);
      RetryNowSimulates(q, t, n, fails, now);
  }

  lemma {:induction false} HappenAllSimulates(q: State, t: State, events: seq<(Event, int)>)
    requires Simulates(q, t)
    ensures Simulates(HappenAll(q, true, events), HappenAll(t, false, events))
    decreases |events|
  {
    if |events| > 0 {
      HappenSimulates(q, t, events[0].0, events[0].1);
      HappenAllSimulates(Happen(q, true, events[0].0, events[0].1), Happen(t, false, events[0].0, events[0].1),
          events[1..]);
    }
  }

  lemma {:induction false} DeadIsEmpty(postings: seq<Posting>)
    requires AllDead(postings)
    ensures Live(postings) == []
  {
    if |postings| > 0 { DeadIsEmpty(postings[1..]); }
  }

  /** Whatever happens in whatever order, once nothing of a document is pending ERPNext holds the same live
      postings for it as if every one had been posted at once. */
  lemma DrainedQueueEqualsSynchronous(events: seq<(Event, int)>, doc: Document)
    requires forall n: nat :: !PendingOf(HappenAll(EMPTY, true, events), doc, n)
    ensures Live(PostingsOf(HappenAll(EMPTY, true, events).erp, doc)) ==
        Live(PostingsOf(HappenAll(EMPTY, false, events).erp, doc))
  {
    assert Simulates(EMPTY, EMPTY);
    HappenAllSimulates(EMPTY, EMPTY, events);
    var q, t := HappenAll(EMPTY, true, events), HappenAll(EMPTY, false, events);
    assert Agrees(q, t, doc);
    if doc.doctype == OtherDocument {
      forall k | 0 <= k < |q.logs| && q.logs[k].doc == doc
        ensures !IsPending(q.logs[k])
      {
        assert !PendingOf(q, doc, k);
      }
      NothingToReplay(q.logs, |q.logs|, doc, PostingsOf(q.erp, doc));
    } else if StatusOf(q, doc) == Reversed {
      DeadIsEmpty(PostingsOf(q.erp, doc));
      DeadIsEmpty(PostingsOf(t.erp, doc));
    }
  }

  // ---------------------------------------------------------------- where the equality ends

  /** A reversal that cancels pending forwards is dropped itself: right exactly when nothing of the document has been
      posted yet. */
  lemma DroppedReversalIsRightExactly(s: State, doc: Document, now: int)
    requires ForwardIsPending(s.logs, doc) && OnlyForwards(PostingsOf(s.erp, doc))
    requires forall n: nat :: PendingOf(s, doc, n) ==> s.logs[n].operation == Forward
    ensures var t := Dispatch(s, true, doc, Reversal, "", now);
      && (forall n: nat :: !PendingOf(t, doc, n))
      && (PostingsOf(t.erp, doc) == CancelForwards(PostingsOf(s.erp, doc)) <==> AllDead(PostingsOf(s.erp, doc)))
  {
    var t := Dispatch(s, true, doc, Reversal, "", now);
    forall n: nat
      ensures !PendingOf(t, doc, n)
    {
      if PendingOf(t, doc, n) { assert PendingOf(s, doc, n); assert false; }
    }
    var mine := PostingsOf(s.erp, doc);
    if AllDead(mine) {
      assert CancelForwards(mine) == mine;
    } else {
      var i :| 0 <= i < |mine| && mine[i].live;
      assert !CancelForwards(mine)[i].live;
    }
  }

  /** In every run of a queued warehouse it is right: while a forward posting waits, nothing of its document is
      posted. */
  lemma RunsDropReversalsRightly(events: seq<(Event, int)>, doc: Document)
    requires ForwardIsPending(HappenAll(EMPTY, true, events).logs, doc)
    ensures PostingsOf(HappenAll(EMPTY, true, events).erp, doc) == []
  {
    var q, t := HappenAll(EMPTY, true, events), HappenAll(EMPTY, false, events);
    assert Simulates(EMPTY, EMPTY);
    HappenAllSimulates(EMPTY, EMPTY, events);
    assert Agrees(q, t, doc);
    var i :| 0 <= i < |q.logs| && IsPendingForward(q.logs[i], doc);
    assert PendingOf(q, doc, i);
  }

  /** A warehouse switched from queued to synchronous posting: a reversal done at once does not cancel the waiting
      forward. What that forward then does depends on the kind of document alone. */
  lemma ReversalAfterSwitchHoldsExactly(q: State, t: State, doc: Document, n: nat, now: int)
    requires Simulates(q, t) && doc.doctype != OtherDocument && StatusOf(q, doc) == Submitted && PendingOf(q, doc, n)
    ensures AllDead(PostingsOf(RunLog(Happen(q, false, Reverse(doc), now), n, false, now).erp, doc)) <==>
        doc.doctype == GoodsReceipt || doc.doctype == GoodsIssue
  {
    assert Agrees(q, t, doc);
    var switched := Happen(q, false, Reverse(doc), now);
    assert PostingsOf(switched.erp, doc) == [] && StatusOf(switched, doc) == Reversed;
    assert switched.logs == q.logs;
    if EarlierIsPending(q.logs, n) {
      var i :| 0 <= i < n && q.logs[i].doc == doc && (q.logs[i].status == Queued || q.logs[i].status == Failed);
      assert PendingOf(q, doc, i);
      assert false;
    }
    var after := PostingsOf(RunLog(switched, n, false, now).erp, doc);
    assert after == Apply(doc, Reversed, [], Forward, q.logs[n].payload);
    if !ChecksStatus(doc) { assert after[0].live; }
  }
}
