/** Number ranges: the next number of a range, or one that a recycled handling unit gave back. */
module Numbering {
  import opened Basics
  import opened Texts

  /** `current` is the last value handed out, 0 for none. */
  datatype Range = Range(prefix: string, length: nat, start: nat, end: nat, current: nat)

  /** `pool`: numbers given back, oldest first; `docs`: the names that documents have. */
  datatype State = State(range: Range, pool: seq<string>, docs: set<string>)

  function Rendered(r: Range, v: nat): string { r.prefix + ZeroFilled(Decimal(v), r.length) }

  /** Everything up to here has been passed over. */
  function Counter(r: Range): nat { if r.start > r.current + 1 then r.start - 1 else r.current }

  /** The first value from `v` on whose number no document has. */
  function FirstFree(r: Range, docs: set<string>, v: nat): Option<nat>
    decreases r.end + 1 - v
  {
    if v > r.end then None else if Rendered(r, v) !in docs then Some(v) else FirstFree(r, docs, v + 1)
  }

  /** A pooled number comes first, and without a look at the documents. */
  function NextNumber(s: State): Option<(State, string)> {
    if |s.pool| > 0 then Some((s.(pool := s.pool[1..]), s.pool[0]))
    else
      match FirstFree(s.range, s.docs, Counter(s.range) + 1)
      case None => None
      case Some(v) => Some((s.(range := s.range.(current := v)), Rendered(s.range, v)))
  }

  /** `used`: whether a document is made with the number; one that exists already undoes the whole step. */
  datatype Step = HandOut(used: bool) | EnterByHand(name: string) | Recycle(name: string)

  datatype Event = Issued(name: string) | Freed(name: string)

  function Perform(s: State, step: Step): (State, seq<Event>) {
    match step
    case HandOut(used) =>
      (match NextNumber(s)
      case None => (s, [])
      case Some(next) =>
        if !used then (next.0, [Issued(next.1)])
        else if next.1 in s.docs then (s, [])
        else (next.0.(docs := next.0.docs + {next.1}), [Issued(next.1)]))
    case EnterByHand(name) => (s.(docs := s.docs + {name}), [])
    case Recycle(name) =>
      if name in s.docs then (s.(docs := s.docs - {name}, pool := s.pool + [name]), [Freed(name)]) else (s, [])
  }

  function Run(s: State, steps: seq<Step>): (State, seq<Event>)
    decreases |steps|
  {
    if |steps| == 0 then (s, [])
    else
      var (next, events) := Perform(s, steps[0]);
      var (last, more) := Run(next, steps[1..]);
      (last, events + more)
  }

  class NumberRange {
    var state: State

    constructor (state: State)
      ensures this.state == state
    {
      this.state := state;
    }

    method Next() returns (number: Option<string>)
      modifies this
      ensures match NextNumber(old(state))
        case None => number == None && state == old(state)
        case Some(next) => number == Some(next.1) && state == next.0
    {
      if |state.pool| > 0 {
        number := Some(state.pool[0]);
        state := state.(pool := state.pool[1..]);
        return;
      }
      var r := state.range;
      var v := Counter(r) + 1;
      while v <= r.end && Rendered(r, v) in state.docs
        invariant FirstFree(r, state.docs, v) == FirstFree(r, state.docs, Counter(r) + 1) && state == old(state)
        decreases r.end + 1 - v
      {
        v := v + 1;
      }
      if v > r.end { return None; }
      number := Some(Rendered(r, v));
      state := state.(range := r.(current := v));
    }
  }

  // ---------------------------------------------------------------- one number

  /** Different values have different numbers, however they are padded. */
  lemma RenderedIsInjective(r: Range, v: nat, w: nat)
    requires Rendered(r, v) == Rendered(r, w)
    ensures v == w
  {
    assert Rendered(r, v)[|r.prefix|..] == ZeroFilled(Decimal(v), r.length);
    assert Rendered(r, w)[|r.prefix|..] == ZeroFilled(Decimal(w), r.length);
    ZeroFilledReadsBack(v, r.length);
    ZeroFilledReadsBack(w, r.length);
  }

  lemma {:induction false} FirstFreeIsFirst(r: Range, docs: set<string>, v: nat)
    ensures match FirstFree(r, docs, v)
      case None => forall w :: v <= w <= r.end ==> Rendered(r, w) in docs
      case Some(u) => v <= u <= r.end && Rendered(r, u) !in docs && forall w :: v <= w < u ==> Rendered(r, w) in docs
    decreases r.end + 1 - v
  {
    if v <= r.end && Rendered(r, v) in docs { FirstFreeIsFirst(r, docs, v + 1); }
  }

  /** A number is the prefix and the value's digits, filled up with zeros to the length and no further. */
  lemma RenderedIs(r: Range, v: nat)
    ensures var text := Rendered(r, v);
      && r.prefix <= text
      && var digits := text[|r.prefix|..];
        && AllDigits(digits) && Number(digits) == v && |digits| >= r.length && |digits| > 0
        && (|digits| > r.length && |digits| > 1 ==> digits[0] != '0')
  {
    assert Rendered(r, v)[|r.prefix|..] == ZeroFilled(Decimal(v), r.length);
    ZeroFilledReadsBack(v, r.length);
    DecimalStarts(v);
  }

  /** Not passed yet: after the last one handed out, and within the range. */
  predicate IsToCome(r: Range, v: nat) { r.start <= v <= r.end && v > r.current }

  /** The pool's oldest number is handed out and leaves the pool; with an empty pool it is the least value to come whose
      number no document has, and the range goes on from there; there is none when documents have them all. */
  lemma NextIsExact(s: State)
    ensures match NextNumber(s)
      case None => s.pool == [] && forall v: nat :: IsToCome(s.range, v) ==> Rendered(s.range, v) in s.docs
      case Some((next, number)) =>
        if s.pool != [] then number == s.pool[0] && next == s.(pool := s.pool[1..])
        else exists v: nat :: IsLeastFree(s, v) && number == Rendered(s.range, v) && next == MovedTo(s, v)
  {
    FirstFreeIsFirst(s.range, s.docs, Counter(s.range) + 1);
    if s.pool == [] && NextNumber(s).Some? {
      var v := FirstFree(s.range, s.docs, Counter(s.range) + 1).value;
      assert IsLeastFree(s, v);
    }
  }

  ghost predicate IsLeastFree(s: State, v: nat) {
    && IsToCome(s.range, v) && Rendered(s.range, v) !in s.docs
    && forall w: nat :: IsToCome(s.range, w) && w < v ==> Rendered(s.range, w) in s.docs
  }

  function MovedTo(s: State, v: nat): State { s.(range := s.range.(current := v)) }

  /** A range is exhausted exactly when nothing is in the pool and every remaining number is in use. */
  lemma ExhaustedExactly(s: State)
    ensures NextNumber(s).None? <==>
        s.pool == [] && forall v :: Counter(s.range) < v <= s.range.end ==> Rendered(s.range, v) in s.docs
  {
    FirstFreeIsFirst(s.range, s.docs, Counter(s.range) + 1);
    if NextNumber(s).Some? && s.pool == [] {
      var u := FirstFree(s.range, s.docs, Counter(s.range) + 1).value;
      assert Counter(s.range) < u <= s.range.end && Rendered(s.range, u) !in s.docs;
    }
  }

  /** The number names a live document exactly when it comes from the pool and a document took it meanwhile. */
  lemma NamesLiveDocumentExactly(s: State)
    requires NextNumber(s).Some?
    ensures NextNumber(s).value.1 in s.docs <==> |s.pool| > 0 && s.pool[0] in s.docs
  {
    FirstFreeIsFirst(s.range, s.docs, Counter(s.range) + 1);
  }

  // ---------------------------------------------------------------- every run

  /** Not among the numbers the range has still to hand out. */
  ghost predicate Behind(r: Range, name: string) { forall v :: Counter(r) < v <= r.end ==> Rendered(r, v) != name }

  /** Pooled numbers are passed, unused, and there once. */
  ghost predicate Tidy(s: State) {
    && (forall i, j :: 0 <= i < j < |s.pool| ==> s.pool[i] != s.pool[j])
    && (forall i :: 0 <= i < |s.pool| ==> Behind(s.range, s.pool[i]) && s.pool[i] !in s.docs)
  }

  /** Documents entered by hand keep off the pool, and only numbers the range has passed are recycled. */
  ghost predicate Orderly(s: State, step: Step) {
    match step
    case HandOut(_) => true
    case EnterByHand(name) => name !in s.pool
    case Recycle(name) => name in s.docs ==> Behind(s.range, name)
  }

  ghost predicate OrderlyRun(s: State, steps: seq<Step>)
    decreases |steps|
  {
    |steps| == 0 || (Orderly(s, steps[0]) && OrderlyRun(Perform(s, steps[0]).0, steps[1..]))
  }

  function After(out: set<string>, events: seq<Event>): set<string>
    decreases |events|
  {
    if |events| == 0 then out
    else After(match events[0] case Issued(name) => out + {name} case Freed(name) => out - {name}, events[1..])
  }

  /** No number is issued while it is out. */
  ghost predicate NeverTwice(out: set<string>, events: seq<Event>)
    decreases |events|
  {
    |events| == 0
    || match events[0]
       case Issued(name) => name !in out && NeverTwice(out + {name}, events[1..])
       case Freed(name) => NeverTwice(out - {name}, events[1..])
  }

  /** The numbers that are out cannot come again. */
  ghost predicate Accounted(s: State, out: set<string>) {
    forall name <- out :: Behind(s.range, name) && name !in s.pool
  }

  lemma RangeMovesOn(s: State)
    requires |s.pool| == 0 && NextNumber(s).Some?
    ensures var (next, name) := NextNumber(s).value;
      && (forall other :: Behind(s.range, other) ==> Behind(next.range, other) && other != name)
      && Behind(next.range, name)
  {
    var u := FirstFree(s.range, s.docs, Counter(s.range) + 1).value;
    FirstFreeIsFirst(s.range, s.docs, Counter(s.range) + 1);
    var next := s.range.(current := u);
    forall v ensures Rendered(next, v) == Rendered(s.range, v) {}
    forall v | Counter(next) < v <= next.end ensures Rendered(next, v) != Rendered(s.range, u) {
      if Rendered(s.range, v) == Rendered(s.range, u) { RenderedIsInjective(s.range, v, u); }
    }
    forall other | Behind(s.range, other) ensures Behind(next, other) {
      forall v | Counter(next) < v <= next.end
        ensures Rendered(next, v) != other
      {
        assert Counter(s.range) < v <= s.range.end;
      }
    }
    assert Counter(s.range) < u <= s.range.end;
  }

  lemma HandOutIsFresh(s: State, used: bool, out: set<string>)
    requires Tidy(s) && Accounted(s, out)
    ensures var (next, events) := Perform(s, HandOut(used));
        Tidy(next) && NeverTwice(out, events) && Accounted(next, After(out, events))
  {
    if NextNumber(s).Some? {
      var (after, name) := NextNumber(s).value;
      if |s.pool| > 0 { PoolMovesOn(s); } else { RangeMovesOn(s); }
      var (next, events) := Perform(s, HandOut(used));
      if events == [Issued(name)] {
        assert events[1..] == [];
        assert After(out, events) == After(out + {name}, []) == out + {name};
        forall other | other in out + {name} ensures Behind(next.range, other) && other !in next.pool {}
      }
    }
  }

  lemma PoolMovesOn(s: State)
    requires Tidy(s) && |s.pool| > 0
    ensures s.pool[0] !in s.pool[1..] && Tidy(s.(pool := s.pool[1..]))
    ensures Tidy(s.(pool := s.pool[1..], docs := s.docs + {s.pool[0]})) && Behind(s.range, s.pool[0])
  {
  }

  lemma RecycleIsTidy(s: State, name: string, out: set<string>)
    requires Tidy(s) && Accounted(s, out) && Orderly(s, Recycle(name))
    ensures var (next, events) := Perform(s, Recycle(name));
        Tidy(next) && NeverTwice(out, events) && Accounted(next, After(out, events))
  {
    if name in s.docs {
      assert name !in s.pool;
      var (next, events) := Perform(s, Recycle(name));
      assert events[1..] == [];
      assert After(out, events) == After(out - {name}, []) == out - {name};
    }
  }

  lemma StepIsFresh(s: State, step: Step, out: set<string>)
    requires Tidy(s) && Accounted(s, out) && Orderly(s, step)
    ensures var (next, events) := Perform(s, step);
        Tidy(next) && NeverTwice(out, events) && Accounted(next, After(out, events))
  {
    match step
    case HandOut(used) => HandOutIsFresh(s, used, out);
    case EnterByHand(name) => assert After(out, []) == out;
    case Recycle(name) => RecycleIsTidy(s, name, out);
  }

  lemma {:induction false} EventsChain(out: set<string>, a: seq<Event>, b: seq<Event>)
    ensures After(out, a + b) == After(After(out, a), b)
    ensures NeverTwice(out, a) && NeverTwice(After(out, a), b) ==> NeverTwice(out, a + b)
    decreases |a|
  {
    if |a| == 0 {
      assert a + b == b;
    } else {
      assert (a + b)[1..] == a[1..] + b;
      EventsChain(match a[0] case Issued(name) => out + {name} case Freed(name) => out - {name}, a[1..], b);
    }
  }

  /** Over every orderly run a number is handed out again only after a recycle gave it back. */
  lemma {:induction false} NumbersAreUnique(s: State, steps: seq<Step>, out: set<string>)
    requires Tidy(s) && Accounted(s, out) && OrderlyRun(s, steps)
    ensures NeverTwice(out, Run(s, steps).1) && Tidy(Run(s, steps).0)
    decreases |steps|
  {
    if |steps| != 0 {
      var (next, events) := Perform(s, steps[0]);
      StepIsFresh(s, steps[0], out);
      NumbersAreUnique(next, steps[1..], After(out, events));
      EventsChain(out, events, Run(next, steps[1..]).1);
    }
  }

  lemma {:induction false} StillOut(name: string, out: set<string>, events: seq<Event>, j: nat)
    requires name in out && NeverTwice(out, events) && j < |events|
    requires forall k :: 0 <= k < j ==> events[k] != Freed(name)
    ensures events[j] != Issued(name)
    decreases j
  {
    if j > 0 {
      var next := match events[0] case Issued(n) => out + {n} case Freed(n) => out - {n};
      assert forall k :: 0 <= k < j - 1 ==> events[1..][k] == events[k + 1];
      StillOut(name, next, events[1..], j - 1);
    }
  }

  lemma {:induction false} TwiceOnlyAfterRecycle(out: set<string>, events: seq<Event>, i: nat, j: nat, name: string)
    requires NeverTwice(out, events) && i < j < |events| && events[i] == Issued(name) == events[j]
    ensures exists k :: i < k < j && events[k] == Freed(name)
    decreases i
  {
    var next := match events[0] case Issued(n) => out + {n} case Freed(n) => out - {n};
    var rest := events[1..];
    if i > 0 {
      TwiceOnlyAfterRecycle(next, rest, i - 1, j - 1, name);
      var k :| i - 1 < k < j - 1 && rest[k] == Freed(name);
      assert events[k + 1] == Freed(name);
    } else if forall k :: 0 < k < j ==> events[k] != Freed(name) {
      assert forall k :: 0 <= k < j - 1 ==> rest[k] == events[k + 1];
      StillOut(name, next, rest, j - 1);
      assert false;
    }
  }

  /** The two hand-outs of one number in a run have its recycle between them. */
  lemma HandOutsDiffer(s: State, steps: seq<Step>, i: nat, j: nat, name: string)
    requires Tidy(s) && OrderlyRun(s, steps) && i < j < |Run(s, steps).1|
    requires Run(s, steps).1[i] == Issued(name) == Run(s, steps).1[j]
    ensures exists k :: i < k < j && Run(s, steps).1[k] == Freed(name)
  {
    NumbersAreUnique(s, steps, {});
    TwiceOnlyAfterRecycle({}, Run(s, steps).1, i, j, name);
  }

  /** A single step keeps the pool tidy exactly when it enters no pooled number by hand and recycles no live number that
      the range has still to come to. */
  lemma StepKeepsTidyExactly(s: State, step: Step)
    requires Tidy(s)
    ensures Tidy(Perform(s, step).0) <==> Orderly(s, step)
  {
    var next := Perform(s, step).0;
    match step
    case HandOut(used) => HandOutIsFresh(s, used, {});
    case EnterByHand(name) =>
      if name in s.pool {
        var i :| 0 <= i < |s.pool| && s.pool[i] == name;
        assert next.pool[i] in next.docs;
      }
    case Recycle(name) =>
      if Orderly(s, step) {
        RecycleIsTidy(s, name, {});
      } else {
        assert next.pool[|s.pool|] == name && !Behind(next.range, name);
      }
  }

  /** The number that comes next, entered by hand and recycled at once, is handed out from the pool and then by the
      range. */
  lemma AheadIsHandedOutTwice(s: State)
    requires s.pool == [] && NextNumber(s).Some?
    ensures var number := NextNumber(s).value.1;
      && !Behind(s.range, number)
      && Run(s, [EnterByHand(number), Recycle(number), HandOut(false), HandOut(false)]).1 ==
          [Freed(number), Issued(number), Issued(number)]
  {
    var number := NextNumber(s).value.1;
    FirstFreeIsFirst(s.range, s.docs, Counter(s.range) + 1);
    assert number !in s.docs;
    var steps := [EnterByHand(number), Recycle(number), HandOut(false), HandOut(false)];
    var entered := s.(docs := s.docs + {number});
    var pooled := s.(pool := [number]);
    assert entered.docs - {number} == s.docs && s.pool + [number] == [number];
    assert steps[1..] == [Recycle(number), HandOut(false), HandOut(false)];
    assert steps[1..][1..] == [HandOut(false), HandOut(false)];
    assert [HandOut(false), HandOut(false)][1..] == [HandOut(false)] && [HandOut(false)][1..] == [];
    assert pooled.pool[1..] == [];
    assert Perform(s, steps[0]) == (entered, []);
    assert Perform(entered, steps[1]) == (pooled, [Freed(number)]);
    assert Perform(pooled, steps[2]) == (s, [Issued(number)]);
    assert Run(s, [HandOut(false)]).1 == [Issued(number)];
    assert Run(pooled, [HandOut(false), HandOut(false)]).1 == [Issued(number), Issued(number)];
    assert Run(entered, steps[1..]).1 == [Freed(number), Issued(number), Issued(number)];
  }

  // ---------------------------------------------------------------- the pool is a queue

  /** The numbers that a run takes out of the pool. */
  function TakenFromPool(s: State, steps: seq<Step>): seq<string>
    decreases |steps|
  {
    if |steps| == 0 then []
    else
      var kept := steps[0].HandOut? && s.pool != [] && !(steps[0].used && s.pool[0] in s.docs);
      (if kept then [s.pool[0]] else []) + TakenFromPool(Perform(s, steps[0]).0, steps[1..])
  }

  function GivenBack(events: seq<Event>): seq<string>
    decreases |events|
  {
    if |events| == 0 then []
    else (match events[0] case Freed(name) => [name] case Issued(_) => []) + GivenBack(events[1..])
  }

  lemma {:induction false} GivenBackInTurn(a: seq<Event>, b: seq<Event>)
    ensures GivenBack(a + b) == GivenBack(a) + GivenBack(b)
    decreases |a|
  {
    if |a| == 0 {
      assert a + b == b;
    } else {
      assert (a + b)[0] == a[0] && (a + b)[1..] == a[1..] + b;
      GivenBackInTurn(a[1..], b);
    }
  }

  lemma OneGivenBack(s: State, step: Step)
    ensures var (next, events) := Perform(s, step);
      s.pool + GivenBack(events) == TakenFromPool(s, [step]) + next.pool
  {
    assert [step][1..] == [];
    var events := Perform(s, step).1;
    if |events| > 0 { assert events[1..] == []; }
  }

  lemma Regroup<T>(pool: seq<T>, given: seq<T>, more: seq<T>, taken: seq<T>, mid: seq<T>, later: seq<T>, last: seq<T>)
    requires pool + given == taken + mid && mid + more == later + last
    ensures pool + (given + more) == (taken + later) + last
  {
    assert pool + (given + more) == (pool + given) + more;
    assert (taken + mid) + more == taken + (mid + more);
    assert taken + (later + last) == (taken + later) + last;
  }

  /** Over every run recycled numbers come out of the pool in the order in which they were given back, and none is
      lost. */
  lemma {:induction false} PoolIsAQueue(s: State, steps: seq<Step>)
    ensures s.pool + GivenBack(Run(s, steps).1) == TakenFromPool(s, steps) + Run(s, steps).0.pool
    decreases |steps|
  {
    if |steps| > 0 {
      var (next, events) := Perform(s, steps[0]);
      var (last, more) := Run(next, steps[1..]);
      OneGivenBack(s, steps[0]);
      PoolIsAQueue(next, steps[1..]);
      GivenBackInTurn(events, more);
      Regroup(s.pool, GivenBack(events), GivenBack(more), TakenFromPool(s, [steps[0]]), next.pool,
          TakenFromPool(next, steps[1..]), last.pool);
      assert TakenFromPool(s, steps) == TakenFromPool(s, [steps[0]]) + TakenFromPool(next, steps[1..]) by {
        assert [steps[0]][1..] == [];
      }
    }
  }

  // ---------------------------------------------------------------- which range

  /** A configured range; an empty warehouse or handling-unit type is any. */
  datatype Config = Config(name: string, warehouse: string, huType: string, active: bool)

  function FirstMatch(configs: seq<Config>, warehouse: string, huType: string): Option<Config>
    decreases |configs|
  {
    if |configs| == 0 then None
    else if configs[0].active && configs[0].warehouse == warehouse && configs[0].huType == huType then Some(configs[0])
    else FirstMatch(configs[1..], warehouse, huType)
  }

  /** Warehouse and type, then type, then warehouse, then the range for everything. */
  function FindRange(configs: seq<Config>, warehouse: string, huType: string): Option<Config> {
    var both := if warehouse != "" && huType != "" then FirstMatch(configs, warehouse, huType) else None;
    if both.Some? then both
    else
      var typed := if huType != "" then FirstMatch(configs, "", huType) else None;
      if typed.Some? then typed
      else
        var housed := if warehouse != "" then FirstMatch(configs, warehouse, "") else None;
        if housed.Some? then housed else FirstMatch(configs, "", "")
  }

  predicate Applies(c: Config, warehouse: string, huType: string) {
    c.active && (c.warehouse == "" || c.warehouse == warehouse) && (c.huType == "" || c.huType == huType)
  }

  /** The type counts for more than the warehouse. */
  function Narrowness(c: Config): nat { (if c.huType != "" then 2 else 0) + (if c.warehouse != "" then 1 else 0) }

  lemma {:induction false} FirstMatchMatches(configs: seq<Config>, warehouse: string, huType: string)
    ensures match FirstMatch(configs, warehouse, huType)
      case Some(c) => c in configs && c.active && c.warehouse == warehouse && c.huType == huType
      case None => forall c <- configs :: !(c.active && c.warehouse == warehouse && c.huType == huType)
    decreases |configs|
  {
    if |configs| != 0 {
      FirstMatchMatches(configs[1..], warehouse, huType);
      assert configs == [configs[0]] + configs[1..];
    }
  }

  /** A range is found exactly when one applies, and none that applies is narrower. */
  lemma NarrowestWins(configs: seq<Config>, warehouse: string, huType: string)
    ensures match FindRange(configs, warehouse, huType)
      case None => forall c <- configs :: !Applies(c, warehouse, huType)
      case Some(found) =>
        found in configs && Applies(found, warehouse, huType) && forall c <- configs ::
            Applies(c, warehouse, huType) ==> Narrowness(c) <= Narrowness(found)
  {
    FirstMatchMatches(configs, warehouse, huType);
    FirstMatchMatches(configs, "", huType);
    FirstMatchMatches(configs, warehouse, "");
    FirstMatchMatches(configs, "", "");
  }
}
