/** What a pass of the scheduler attempts, and when such passes drain the queue. */
module ErpSyncQueueProgress {
  import opened Basics
  import opened ErpSyncQueue
  import opened ErpSyncQueueProofs

  // ---------------------------------------------------------------- one attempt

  /** Minutes until the next attempt, after as many failures. */
  function Wait(failures: nat): nat {
    if failures <= 1 then 5
    else if failures == 2 then 10
    else if failures == 3 then 20
    else if failures == 4 then 40
    else if failures == 5 then 80
    else if failures == 6 then 160
    else if failures == 7 then 320
    else 360
  }

  lemma {:induction false} PowersGrow(n: nat)
    requires n >= 7
    ensures PowerOfTwo(n) >= 128
  {
    if n > 7 {
      PowersGrow(n - 1);
    } else {
      assert PowerOfTwo(3) == 8 && PowerOfTwo(5) == 32;
    }
  }

  lemma BackoffIs(failures: nat)
    requires failures > 0
    ensures Backoff(failures) == Wait(failures)
  {
    if failures >= 8 { PowersGrow(failures - 1); } else { assert PowerOfTwo(3) == 8 && PowerOfTwo(5) == 32; }
  }

  predicate Waits(l: Log) { l.status == Queued || l.status == Failed }

  /** An earlier log of the same document has still to be posted. */
  predicate IsBehind(logs: seq<Log>, n: nat)
    requires n < |logs|
  {
    exists i :: 0 <= i < n && logs[i].doc == logs[n].doc && Waits(logs[i])
  }

  /** What an attempt leaves of a log. */
  function Attempted(l: Log, behind: bool, fails: bool, now: int): Log {
    if behind then l.(nextRetryAt := Some(now + 2))
    else if fails then l.(status := Failed, attempts := l.attempts + 1, nextRetryAt := Some(now + Wait(l.attempts + 1)))
    else l.(status := Done, attempts := l.attempts + 1)
  }

  lemma AttemptIs(s: State, n: nat, fails: bool, now: int)
    requires n < |s.logs| && Waits(s.logs[n])
    ensures var t := RunLog(s, n, fails, now);
      && t.logs == s.logs[n := Attempted(s.logs[n], IsBehind(s.logs, n), fails, now)]
      && t.history == s.history + (if IsBehind(s.logs, n) || fails then [] else [n])
      && (IsBehind(s.logs, n) || fails ==> t.erp == s.erp)
  {
    BackoffIs(s.logs[n].attempts + 1);
  }

  function ByHand(l: Log): Log { l.(status := Failed, nextRetryAt := None) }

  /** A retry by hand attempts a waiting log at once, however often it has failed and whenever it is due. */
  lemma RetryByHandIsExact(s: State, n: nat, fails: bool, now: int)
    requires n < |s.logs|
    ensures var t := RetryNow(s, n, fails, now);
      && (!Waits(s.logs[n]) ==> t == s)
      && (Waits(s.logs[n]) ==>
          t.logs == s.logs[n := Attempted(ByHand(s.logs[n]), IsBehind(s.logs, n), fails, now)])
      && (Waits(s.logs[n]) ==> (n in t.history <==> n in s.history || !(IsBehind(s.logs, n) || fails)))
  {
    if Waits(s.logs[n]) {
      var ready := s.(logs := s.logs[n := s.logs[n].(status := Failed, nextRetryAt := None)]);
      AttemptIs(ready, n, fails, now);
      if i :| 0 <= i < n && s.logs[i].doc == s.logs[n].doc && Waits(s.logs[i]) {
        assert ready.logs[i] == s.logs[i];
      }
    }
  }

  // ---------------------------------------------------------------- one pass

  /** The scheduler is to attempt it: fewer than twelve failures and past its retry time, or queued for ten minutes. */
  predicate IsTimely(l: Log, now: int) {
    || (l.status == Failed && l.attempts < 12 && (l.nextRetryAt.None? || l.nextRetryAt.value <= now))
    || (l.status == Queued && l.createdAt + 10 <= now)
  }

  /** How many timely logs are older than log `n`. */
  function TimelyBefore(logs: seq<Log>, n: nat, now: int): nat
    requires n <= |logs|
  {
    if n == 0 then 0 else TimelyBefore(logs, n - 1, now) + if IsTimely(logs[n - 1], now) then 1 else 0
  }

  lemma {:induction false} TimelyGrows(logs: seq<Log>, m: nat, n: nat, now: int)
    requires m <= n <= |logs|
    ensures TimelyBefore(logs, m, now) <= TimelyBefore(logs, n, now)
  {
    if m < n { TimelyGrows(logs, m, n - 1, now); }
  }

  /** The picked logs are those that are timely, in order. */
  lemma {:induction false} PickedAt(logs: seq<Log>, from: nat, n: nat, now: int)
    requires from <= n < |logs| && IsTimely(logs[n], now) && forall l <- logs :: l.status != Running
    ensures var k := TimelyBefore(logs, n, now) - TimelyBefore(logs, from, now);
      0 <= k < |DueLogs(logs, from, now)| && DueLogs(logs, from, now)[k] == n
    decreases |logs| - from
  {
    TimelyGrows(logs, from, n, now);
    assert logs[from] in logs;
    if from < n {
      var next := from + 1;
      PickedAt(logs, next, n, now);
    }
  }

  ghost predicate Rising(picked: seq<nat>, n: nat) {
    (forall k :: 0 <= k < |picked| ==> picked[k] < n) && forall k, m :: 0 <= k < m < |picked| ==> picked[k] < picked[m]
  }

  /** Rising positions of timely logs. */
  ghost predicate AreTimely(logs: seq<Log>, picked: seq<nat>, from: nat, now: int) {
    Rising(picked, |logs|) && forall n <- picked :: from <= n && n < |logs| && IsTimely(logs[n], now)
  }

  lemma OneMoreTimely(logs: seq<Log>, rest: seq<nat>, from: nat, next: nat, now: int)
    requires from < |logs| && next == from + 1 && AreTimely(logs, rest, next, now)
    ensures AreTimely(logs, rest, from, now)
    ensures IsTimely(logs[from], now) ==> AreTimely(logs, [from] + rest, from, now)
  {
    forall k | 0 <= k < |rest| ensures rest[k] > from { assert rest[k] in rest; }
  }

  lemma {:induction false} PickedAreTimely(logs: seq<Log>, from: nat, now: int)
    requires from <= |logs| && forall l <- logs :: l.status != Running
    ensures AreTimely(logs, DueLogs(logs, from, now), from, now)
    decreases |logs| - from
  {
    if from < |logs| {
      assert logs[from] in logs;
      PickedAreTimely(logs, from + 1, now);
      OneMoreTimely(logs, DueLogs(logs, from + 1, now), from, from + 1, now);
    }
  }

  predicate FailsAt(outcomes: seq<bool>, k: nat) { k >= |outcomes| || outcomes[k] }

  /** The state in which the other picked logs are attempted. */
  lemma FirstAttempt(s: State, picked: seq<nat>, outcomes: seq<bool>, now: int) returns (next: State)
    requires |picked| > 0 && Rising(picked, |s.logs|) && forall k :: 0 <= k < |picked| ==> Waits(s.logs[picked[k]])
    ensures RetryAll(s, picked, outcomes, now) ==
        RetryAll(next, picked[1..], if |outcomes| > 0 then outcomes[1..] else [], now)
    ensures next.logs == s.logs[picked[0] := Attempted(s.logs[picked[0]], IsBehind(s.logs, picked[0]),
        FailsAt(outcomes, 0), now)]
    ensures Rising(picked[1..], |next.logs|)
    ensures forall k :: 0 <= k < |picked[1..]| ==> Waits(next.logs[picked[1..][k]])
  {
    next := RunLog(s, picked[0], FailsAt(outcomes, 0), now);
    AttemptIs(s, picked[0], FailsAt(outcomes, 0), now);
    assert Unstick(s, picked[0]) == s;
  }

  lemma {:induction false} NoLogIsAdded(s: State, picked: seq<nat>, outcomes: seq<bool>, now: int)
    ensures |RetryAll(s, picked, outcomes, now).logs| == |s.logs|
    decreases |picked|
  {
    if |picked| > 0 {
      NoLogIsAdded(RunLog(Unstick(s, picked[0]), picked[0], if |outcomes| > 0 then outcomes[0] else true, now),
          picked[1..], if |outcomes| > 0 then outcomes[1..] else [], now);
    }
  }

  lemma {:induction false} OthersAreUntouched(s: State, picked: seq<nat>, outcomes: seq<bool>, now: int, n: nat)
    requires n < |s.logs| && Rising(picked, |s.logs|)
    requires forall k :: 0 <= k < |picked| ==> Waits(s.logs[picked[k]]) && picked[k] != n
    ensures |RetryAll(s, picked, outcomes, now).logs| == |s.logs|
    ensures RetryAll(s, picked, outcomes, now).logs[n] == s.logs[n]
    decreases |picked|
  {
    if |picked| > 0 {
      var next := FirstAttempt(s, picked, outcomes, now);
      OthersAreUntouched(next, picked[1..], if |outcomes| > 0 then outcomes[1..] else [], now, n);
    }
  }

  /** The logs up to `n` are in the end as they are once log `n` has had its turn. */
  lemma BehindInTheEnd(s: State, picked: seq<nat>, outcomes: seq<bool>, now: int, n: nat)
    requires n < |s.logs| && Rising(picked, |s.logs|)
    requires forall k :: 0 <= k < |picked| ==> Waits(s.logs[picked[k]]) && picked[k] > n
    ensures |RetryAll(s, picked, outcomes, now).logs| == |s.logs|
    ensures IsBehind(RetryAll(s, picked, outcomes, now).logs, n) == IsBehind(s.logs, n)
    ensures RetryAll(s, picked, outcomes, now).logs[n] == s.logs[n]
  {
    NoLogIsAdded(s, picked, outcomes, now);
    forall i: nat | i <= n
      ensures RetryAll(s, picked, outcomes, now).logs[i] == s.logs[i]
    {
      OthersAreUntouched(s, picked, outcomes, now, i);
    }
  }

  lemma SameBehind(a: seq<Log>, b: seq<Log>, n: nat)
    requires n < |a| && n < |b| && a[n].doc == b[n].doc && forall i :: 0 <= i < n ==> a[i] == b[i]
    ensures IsBehind(a, n) == IsBehind(b, n)
  {
    if IsBehind(a, n) {
      var i :| 0 <= i < n && a[i].doc == a[n].doc && Waits(a[i]);
      assert b[i] == a[i];
    }
    if IsBehind(b, n) {
      var i :| 0 <= i < n && b[i].doc == b[n].doc && Waits(b[i]);
      assert a[i] == b[i];
    }
  }

  lemma {:induction false} PickedAreAttempted(s: State, picked: seq<nat>, outcomes: seq<bool>, now: int, k: nat)
    requires k < |picked| && Rising(picked, |s.logs|)
    requires forall m :: 0 <= m < |picked| ==> Waits(s.logs[picked[m]])
    ensures |RetryAll(s, picked, outcomes, now).logs| == |s.logs|
    ensures var t := RetryAll(s, picked, outcomes, now); var n := picked[k];
      t.logs[n] == Attempted(s.logs[n], IsBehind(t.logs, n), FailsAt(outcomes, k), now)
    decreases |picked|
  {
    var next := FirstAttempt(s, picked, outcomes, now);
    var later := if |outcomes| > 0 then outcomes[1..] else [];
    NoLogIsAdded(s, picked, outcomes, now);
    if k == 0 {
      BehindInTheEnd(next, picked[1..], later, now, picked[0]);
      SameBehind(next.logs, s.logs, picked[0]);
    } else {
      PickedAreAttempted(next, picked[1..], later, now, k - 1);
    }
  }

  lemma FewArePicked(s: State, now: int)
    requires NeverRunning(s)
    ensures var picked := FirstFew(DueLogs(s.logs, 0, now));
      Rising(picked, |s.logs|) && forall k :: 0 <= k < |picked| ==> Waits(s.logs[picked[k]])
  {
    forall l | l in s.logs ensures l.status != Running {}
    PickedAreTimely(s.logs, 0, now);
  }

  lemma IsPickedExactly(s: State, now: int, n: nat)
    requires NeverRunning(s) && n < |s.logs|
    ensures var picked := FirstFew(DueLogs(s.logs, 0, now)); var k := TimelyBefore(s.logs, n, now);
      && (n in picked <==> IsTimely(s.logs[n], now) && k < 200)
      && (n in picked ==> k < |picked| && picked[k] == n)
  {
    forall l | l in s.logs ensures l.status != Running {}
    var picked := FirstFew(DueLogs(s.logs, 0, now));
    PickedAreTimely(s.logs, 0, now);
    if IsTimely(s.logs[n], now) { PickedAt(s.logs, 0, n, now); }
    if n in picked {
      var m :| 0 <= m < |picked| && picked[m] == n;
      assert DueLogs(s.logs, 0, now)[m] == n;
    }
  }

  /** A pass attempts a log exactly when it is timely and fewer than 200 timely ones are older. It is put off by two
      minutes when an earlier log of its document is still waiting afterwards; every other log is untouched. */
  lemma PassIsExact(s: State, outcomes: seq<bool>, now: int, n: nat)
    requires NeverRunning(s) && n < |s.logs|
    ensures var t := RetryDue(s, outcomes, now); var k := TimelyBefore(s.logs, n, now);
      && |t.logs| == |s.logs|
      && t.logs[n] == if IsTimely(s.logs[n], now) && k < 200
          then Attempted(s.logs[n], IsBehind(t.logs, n), FailsAt(outcomes, k), now) else s.logs[n]
  {
    var picked := FirstFew(DueLogs(s.logs, 0, now));
    FewArePicked(s, now);
    IsPickedExactly(s, now, n);
    if n in picked {
      PickedAreAttempted(s, picked, outcomes, now, TimelyBefore(s.logs, n, now));
    } else {
      OthersAreUntouched(s, picked, outcomes, now, n);
    }
  }

  // ---------------------------------------------------------------- draining the queue

  /** No pass will attempt it again. */
  predicate IsExhausted(l: Log) { l.status == Failed && l.attempts >= 12 }

  ghost predicate NoneExhausted(logs: seq<Log>) { forall l <- logs :: !IsExhausted(l) }

  /** All that can still be attempted has come to its time. */
  ghost predicate AllTimely(logs: seq<Log>, now: int) {
    forall l <- logs :: Waits(l) ==> IsExhausted(l) || IsTimely(l, now)
  }

  function WaitingBefore(logs: seq<Log>, n: nat): nat
    requires n <= |logs|
  {
    if n == 0 then 0 else WaitingBefore(logs, n - 1) + if Waits(logs[n - 1]) then 1 else 0
  }

  function AllGood(): seq<bool> { seq(200, i => false) }

  /** A pass in which nothing fails. */
  function GoodPass(s: State, now: int): State { RetryDue(s, AllGood(), now) }

  lemma {:induction false} WaitingAreTimely(logs: seq<Log>, n: nat, now: int)
    requires n <= |logs| && NoneExhausted(logs) && AllTimely(logs, now)
    ensures TimelyBefore(logs, n, now) == WaitingBefore(logs, n)
  {
    if n > 0 {
      WaitingAreTimely(logs, n - 1, now);
      assert logs[n - 1] in logs;
    }
  }

  lemma {:induction false} WaitingGrows(logs: seq<Log>, m: nat, n: nat)
    requires m <= n <= |logs|
    ensures WaitingBefore(logs, m) <= WaitingBefore(logs, n)
  {
    if m < n { WaitingGrows(logs, m, n - 1); }
  }

  function DoneIn(l: Log, first: bool): Log {
    if Waits(l) && first then l.(status := Done, attempts := l.attempts + 1) else l
  }

  /** Log `n` is done if it is one of the first 200 that wait, else as it was. */
  ghost predicate IsDoneAt(s: State, t: State, n: nat)
    requires n < |s.logs| == |t.logs|
  {
    t.logs[n] == DoneIn(s.logs[n], WaitingBefore(s.logs, n) < 200)
  }

  /** The first 200 waiting logs are done. */
  lemma {:induction false} GoodPassDoesAt(s: State, now: int, n: nat)
    requires NeverRunning(s) && NoneExhausted(s.logs) && AllTimely(s.logs, now) && n < |s.logs|
    ensures |GoodPass(s, now).logs| == |s.logs|
    ensures GoodPass(s, now).logs[n] == DoneIn(s.logs[n], WaitingBefore(s.logs, n) < 200)
    decreases n
  {
    var t := GoodPass(s, now);
    PassIsExact(s, AllGood(), now, n);
    WaitingAreTimely(s.logs, n, now);
    assert s.logs[n] in s.logs;
    if WaitingBefore(s.logs, n) < 200 && IsBehind(t.logs, n) {
      var i :| 0 <= i < n && t.logs[i].doc == t.logs[n].doc && Waits(t.logs[i]);
      WaitingGrows(s.logs, i, n);
      GoodPassDoesAt(s, now, i);
      assert false;
    }
  }

  lemma GoodPassDoes(s: State, now: int)
    requires NeverRunning(s) && NoneExhausted(s.logs) && AllTimely(s.logs, now)
    ensures var t := GoodPass(s, now);
      && |t.logs| == |s.logs| && NeverRunning(t) && NoneExhausted(t.logs)
      && (forall n :: 0 <= n < |s.logs| ==> IsDoneAt(s, t, n))
      && (forall later :: AllTimely(s.logs, later) ==> AllTimely(t.logs, later))
  {
    var t := GoodPass(s, now);
    NoLogIsAdded(s, FirstFew(DueLogs(s.logs, 0, now)), AllGood(), now);
    forall n | 0 <= n < |s.logs| ensures IsDoneAt(s, t, n) { GoodPassDoesAt(s, now, n); }
    forall l | l in t.logs ensures !IsExhausted(l) && l.status != Running && (Waits(l) ==> l in s.logs) {
      var n :| 0 <= n < |t.logs| && t.logs[n] == l;
      assert IsDoneAt(s, t, n) && s.logs[n] in s.logs;
    }
    forall n | 0 <= n < |t.logs| ensures t.logs[n].status != Running { assert t.logs[n] in t.logs; }
  }

  /** What 200 off a number leave. */
  function Beyond(n: nat): nat { if n <= 200 then 0 else n - 200 }

  /** Each pass takes up to 200 off the queue. */
  lemma {:induction false} FewerWait(s: State, t: State, n: nat)
    requires n <= |s.logs| == |t.logs|
    requires forall k :: 0 <= k < |s.logs| ==> IsDoneAt(s, t, k)
    ensures WaitingBefore(t.logs, n) == Beyond(WaitingBefore(s.logs, n))
  {
    if n > 0 {
      var k := n - 1;
      FewerWait(s, t, k);
      assert IsDoneAt(s, t, k);
      assert Waits(t.logs[k]) <==> Waits(s.logs[k]) && WaitingBefore(s.logs, k) >= 200;
    }
  }

  function GoodPasses(s: State, times: seq<int>): State
    decreases |times|
  {
    if |times| == 0 then s else GoodPasses(GoodPass(s, times[0]), times[1..])
  }

  ghost predicate NoneWaits(s: State) { forall l <- s.logs :: !Waits(l) }

  lemma {:induction false} NoneWaitsBefore(logs: seq<Log>, n: nat)
    requires n <= |logs| && WaitingBefore(logs, n) == 0
    ensures forall k :: 0 <= k < n ==> !Waits(logs[k])
  {
    if n > 0 { NoneWaitsBefore(logs, n - 1); }
  }

  lemma {:induction false} PassesDrain(s: State, times: seq<int>)
    requires NeverRunning(s) && NoneExhausted(s.logs) && forall k :: 0 <= k < |times| ==> AllTimely(s.logs, times[k])
    requires WaitingBefore(s.logs, |s.logs|) <= 200 * |times|
    ensures NoneWaits(GoodPasses(s, times)) && NeverRunning(GoodPasses(s, times))
    decreases |times|
  {
    if |times| == 0 {
      NoneWaitsBefore(s.logs, |s.logs|);
    } else {
      var t := GoodPass(s, times[0]);
      GoodPassDoes(s, times[0]);
      FewerWait(s, t, |s.logs|);
      PassesDrain(t, times[1..]);
    }
  }

  /** An exhausted log stays in the way for good. */
  lemma {:induction false} ExhaustedStays(s: State, times: seq<int>, n: nat)
    requires NeverRunning(s) && n < |s.logs| && IsExhausted(s.logs[n])
    ensures n < |GoodPasses(s, times).logs| && GoodPasses(s, times).logs[n] == s.logs[n]
    decreases |times|
  {
    if |times| > 0 {
      var t := GoodPass(s, times[0]);
      forall k | 0 <= k < |s.logs| ensures |t.logs| == |s.logs| && t.logs[k].status != Running {
        PassIsExact(s, AllGood(), times[0], k);
      }
      PassIsExact(s, AllGood(), times[0], n);
      ExhaustedStays(t, times[1..], n);
    }
  }

  lemma ExhaustedKeepsWaiting(s: State, times: seq<int>, n: nat)
    requires NeverRunning(s) && n < |s.logs| && IsExhausted(s.logs[n])
    ensures !NoneWaits(GoodPasses(s, times))
  {
    var last := GoodPasses(s, times);
    ExhaustedStays(s, times, n);
    assert last.logs[n] in last.logs;
  }

  /** Enough passes in which nothing fails drain the queue if and only if no log in it has failed twelve times. */
  lemma PassesDrainExactly(s: State, times: seq<int>)
    requires NeverRunning(s) && (forall k :: 0 <= k < |times| ==> AllTimely(s.logs, times[k]))
    requires WaitingBefore(s.logs, |s.logs|) <= 200 * |times|
    ensures NoneWaits(GoodPasses(s, times)) <==> NoneExhausted(s.logs)
  {
    if NoneExhausted(s.logs) {
      PassesDrain(s, times);
    } else {
      var l :| l in s.logs && IsExhausted(l);
      var n :| 0 <= n < |s.logs| && s.logs[n] == l;
      ExhaustedKeepsWaiting(s, times, n);
    }
  }

  // ---------------------------------------------------------------- what ERPNext then holds

  function PassEvents(times: seq<int>): (r: seq<(Event, int)>)
    ensures |r| == |times|
  {
    seq(|times|, k requires 0 <= k < |times| => (RetryPass(AllGood()), times[k]))
  }

  lemma {:induction false} HappenOn(s: State, queued: bool, a: seq<(Event, int)>, b: seq<(Event, int)>)
    ensures HappenAll(s, queued, a + b) == HappenAll(HappenAll(s, queued, a), queued, b)
    decreases |a|
  {
    if |a| == 0 {
      assert a + b == b;
    } else {
      assert (a + b)[0] == a[0] && (a + b)[1..] == a[1..] + b;
      HappenOn(Happen(s, queued, a[0].0, a[0].1), queued, a[1..], b);
    }
  }

  lemma {:induction false} PassesHappen(s: State, times: seq<int>)
    ensures HappenAll(s, true, PassEvents(times)) == GoodPasses(s, times)
    decreases |times|
  {
    if |times| > 0 {
      assert PassEvents(times)[1..] == PassEvents(times[1..]);
      PassesHappen(GoodPass(s, times[0]), times[1..]);
    }
  }

  lemma {:induction false} PassesWithoutLogs(t: State, times: seq<int>)
    requires t.logs == []
    ensures HappenAll(t, false, PassEvents(times)) == t
    decreases |times|
  {
    if |times| > 0 {
      assert PassEvents(times)[1..] == PassEvents(times[1..]);
      NothingToRun(t, RetryPass(AllGood()), times[0]);
      PassesWithoutLogs(t, times[1..]);
    }
  }

  /** However posting was delayed, failed or retried: once nothing has failed twelve times, enough passes without a
      failure bring every document to the live postings it has in synchronous mode. */
  lemma QueueCatchesUp(events: seq<(Event, int)>, times: seq<int>, doc: Document)
    requires var q := HappenAll(EMPTY, true, events);
      && NoneExhausted(q.logs) && (forall k :: 0 <= k < |times| ==> AllTimely(q.logs, times[k]))
      && WaitingBefore(q.logs, |q.logs|) <= 200 * |times|
    ensures Live(PostingsOf(HappenAll(EMPTY, true, events + PassEvents(times)).erp, doc)) ==
        Live(PostingsOf(HappenAll(EMPTY, false, events).erp, doc))
  {
    var q, t := HappenAll(EMPTY, true, events), HappenAll(EMPTY, false, events);
    assert Simulates(EMPTY, EMPTY);
    HappenAllSimulates(EMPTY, EMPTY, events);
    PassesDrain(q, times);
    HappenOn(EMPTY, true, events, PassEvents(times));
    HappenOn(EMPTY, false, events, PassEvents(times));
    PassesHappen(q, times);
    PassesWithoutLogs(t, times);
    NothingPendingAtTheEnd(GoodPasses(q, times), doc);
    DrainedQueueEqualsSynchronous(events + PassEvents(times), doc);
  }

  lemma NothingPendingAtTheEnd(s: State, doc: Document)
    requires NoneWaits(s) && NeverRunning(s)
    ensures forall n: nat :: !PendingOf(s, doc, n)
  {
    forall n: nat | n < |s.logs| ensures !IsPending(s.logs[n]) { assert s.logs[n] in s.logs; }
  }

  // ---------------------------------------------------------------- what has happened to a document

  /** Submitted with a payload, and perhaps reversed since. */
  datatype Story = Untold | Told(payload: string, reversed: bool)

  function StoryOf(events: seq<(Event, int)>, doc: Document): Story {
    var n := |events| - 1;
    if |events| == 0 then Untold
    else
      var before := StoryOf(events[..n], doc);
      match events[n].0
      case Post(d, payload) => if d == doc && before.Untold? then Told(payload, false) else before
      case Reverse(d) => if d == doc && before.Told? then Told(before.payload, true) else before
      case _ => before
  }

  function StatusIn(story: Story): DocStatus {
    if story.Untold? then Draft else if story.reversed then Reversed else Submitted
  }

  function PostingsIn(story: Story): seq<Posting> {
    if story.Untold? then [] else [Posting(Forward, story.payload, !story.reversed)]
  }

  lemma LastHappens(s: State, queued: bool, events: seq<(Event, int)>)
    requires |events| > 0
    ensures var n := |events| - 1;
      HappenAll(s, queued, events) == Happen(HappenAll(s, queued, events[..n]), queued, events[n].0, events[n].1)
  {
    var n := |events| - 1;
    assert events == events[..n] + [events[n]];
    HappenOn(s, queued, events[..n], [events[n]]);
    assert [events[n]][1..] == [];
    var mid := HappenAll(s, queued, events[..n]);
    assert HappenAll(Happen(mid, queued, events[n].0, events[n].1), queued, []) ==
        Happen(mid, queued, events[n].0, events[n].1);
  }

  lemma {:induction false} NoLogsInSynchronous(events: seq<(Event, int)>)
    ensures HappenAll(EMPTY, false, events).logs == []
  {
    if |events| > 0 {
      var n := |events| - 1;
      NoLogsInSynchronous(events[..n]);
      LastHappens(EMPTY, false, events);
    }
  }

  lemma SynchronousStep(t: State, e: Event, now: int, doc: Document, before: Story, after: Story)
    requires doc.doctype != OtherDocument && t.logs == []
    requires StatusOf(t, doc) == StatusIn(before) && PostingsOf(t.erp, doc) == PostingsIn(before)
    requires after == match e
      case Post(d, payload) => if d == doc && before.Untold? then Told(payload, false) else before
      case Reverse(d) => if d == doc && before.Told? then Told(before.payload, true) else before
      case _ => before
    ensures StatusOf(Happen(t, false, e, now), doc) == StatusIn(after)
    ensures PostingsOf(Happen(t, false, e, now).erp, doc) == PostingsIn(after)
  {
  }

  /** In synchronous mode ERPNext has one posting of every document that was submitted, with its payload, live until the
      document is reversed. */
  lemma {:induction false} SynchronousHolds(events: seq<(Event, int)>, doc: Document)
    requires doc.doctype != OtherDocument
    ensures var t := HappenAll(EMPTY, false, events);
        StatusOf(t, doc) == StatusIn(StoryOf(events, doc)) &&
          PostingsOf(t.erp, doc) == PostingsIn(StoryOf(events, doc))
  {
    if |events| > 0 {
      var n := |events| - 1;
      SynchronousHolds(events[..n], doc);
      NoLogsInSynchronous(events[..n]);
      LastHappens(EMPTY, false, events);
      SynchronousStep(HappenAll(EMPTY, false, events[..n]), events[n].0, events[n].1, doc, StoryOf(events[..n], doc),
          StoryOf(events, doc));
    }
  }

  /** Whatever the queue went through, after enough passes without a failure ERPNext has a live posting of exactly those
      documents that were submitted and not reversed, each with its payload. */
  lemma QueueDelivers(events: seq<(Event, int)>, times: seq<int>, doc: Document)
    requires doc.doctype != OtherDocument
    requires var q := HappenAll(EMPTY, true, events);
      && NoneExhausted(q.logs) && (forall k :: 0 <= k < |times| ==> AllTimely(q.logs, times[k]))
      && WaitingBefore(q.logs, |q.logs|) <= 200 * |times|
    ensures var story := StoryOf(events, doc);
      Live(PostingsOf(HappenAll(EMPTY, true, events + PassEvents(times)).erp, doc)) ==
        if story.Told? && !story.reversed then [Posting(Forward, story.payload, true)] else []
  {
    QueueCatchesUp(events, times, doc);
    SynchronousHolds(events, doc);
    LiveOfStory(StoryOf(events, doc));
  }

  lemma LiveOfStory(story: Story)
    ensures Live(PostingsIn(story)) == if story.Told? && !story.reversed then PostingsIn(story) else []
  {
    if story.Told? {
      assert PostingsIn(story)[1..] == [];
      assert Live(PostingsIn(story)[1..]) == [];
    }
  }

  /** The other documents: every record is posted, but one that may be there only once and already is. */
  function RecordsOf(events: seq<(Event, int)>, doc: Document): seq<Posting> {
    var n := |events| - 1;
    if |events| == 0 then []
    else
      var before := RecordsOf(events[..n], doc);
      match events[n].0
      case Note(d, name, once, payload) =>
        if d != doc || (once && exists k :: 0 <= k < |before| && before[k].operation == Record(name, true)) then before
        else before + [Posting(Record(name, once), payload, true)]
      case _ => before
  }

  lemma {:induction false} SynchronousRecords(events: seq<(Event, int)>, doc: Document)
    requires doc.doctype == OtherDocument
    ensures PostingsOf(HappenAll(EMPTY, false, events).erp, doc) == RecordsOf(events, doc)
  {
    if |events| > 0 {
      var n := |events| - 1;
      SynchronousRecords(events[..n], doc);
      NoLogsInSynchronous(events[..n]);
      LastHappens(EMPTY, false, events);
    }
  }

  /** What is queued is a new log for the document, not attempted yet and due after ten minutes. */
  lemma PostIsQueued(s: State, doc: Document, payload: string, now: int)
    requires doc.doctype != OtherDocument && StatusOf(s, doc) == Draft
    ensures var t := Happen(s, true, Post(doc, payload), now);
      && |t.logs| == |s.logs| + 1 && t.logs[..|s.logs|] == s.logs && t.erp == s.erp && t.history == s.history
      && var l := t.logs[|s.logs|];
        && l.doc == doc && l.operation == Forward && l.payload == payload && l.status == Queued
        && l.attempts == 0 && forall later :: IsTimely(l, later) <==> later >= now + 10
  {
  }
}
