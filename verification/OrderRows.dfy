/** Following the change of one order line: the reduction, the growth, and what an allocation at a release can do to
    others. */
module OrderRows {
  import opened Basics
  import opened Sums
  import opened Sorting
  import opened OrderUpdate
  import opened OrderTotals

  // ---------------------------------------------------------------- the reduction

  function Less(l: Line, t: real): Line { l.(qty := l.qty - t) }

  /** Taking off free quantity of an order line lowers the weight by as much (`falls`), or not at all. */
  ghost predicate Follows(w: Weight, id: string, falls: bool) {
    forall s: bool, l: Line, t: real {:trigger w(s, Less(l, t))} :: l.orderLine == id && ProperLine(l) &&
        0.0 < t <= l.qty - l.done - l.allocatedQty
      ==> w(s, l) == w(s, Less(l, t)) + (if falls then t else 0.0)
  }

  ghost predicate EmptyIsNothing(w: Weight, id: string) {
    forall l: Line {:trigger w(false, l)} ::
      l.orderLine == id && ProperLine(l) && l.qty == l.done == l.allocatedQty == 0.0 ==> w(false, l) == 0.0
  }

  // ---------------------------------------------------------------- allocations at release

  /** An allocation to a line of a delivery not under execution only lowers the weight, or does not move it. */
  ghost predicate Steady(w: Weight, exactly: bool) {
    forall s: bool, l: Line, t: real {:trigger w(s, Held(l, t))} :: ProperLine(l) && !LineStarted(l) && 0.0 <= t &&
        (t == 0.0 || l.allocatedQty + t <= l.qty)
      ==> NoMore(w(false, l), w(s, Held(l, t)), exactly)
  }

  /** No delivery gets anything at its release; so it is in a warehouse without such a follow-up. */
  ghost predicate FindsNothing(found: FollowUp) { forall i: nat, p: nat :: found(i, p) <= 0.0 }

  /** The order lines whose change is still to come, those of them whose free quantity matters, those that grow,
      and lines whose delivery must not be started by an allocation. */
  datatype Scope = Scope(todo: iset<string>, minded: iset<string>, raised: iset<string>, kept: (string, string) -> bool)

  predicate IsKept(S: Scope, l: Line) { S.kept(l.order, l.orderLine) }

  /** A change can take all of the line away. */
  predicate Emptiable(l: Line) { l.qty > 0.0 && l.allocatedQty == 0.0 }

  ghost predicate Carries(d: Delivery, p: nat, S: Scope) {
    exists y :: 0 <= y < |d.lines| && y != p && IsKept(S, d.lines[y])
  }

  /** When line `p` is taken away, what the allocation at the release does to line `x` is of no consequence. */
  ghost predicate Harms(d: Delivery, p: nat, x: nat, S: Scope)
    requires x < |d.lines|
  {
    || (d.lines[x].orderLine in S.minded && FreeQty(d.lines[x]) > 0.0)
    || (Carries(d, p, S) && (FreeQty(d.lines[x]) > 0.0 || (d.lines[x].orderLine in S.raised && !IsKept(S, d.lines[x]))))
  }

  /** Replacing the delivery for one of the changes to come cannot harm another. */
  ghost predicate SafeDelivery(d: Delivery, S: Scope) {
    IsOpen(d) && !Started(d) && d.mode.Allocates? ==>
      forall p: nat, x: nat ::
        p < |d.lines| && x < |d.lines| && p != x && Emptiable(d.lines[p]) && d.lines[p].orderLine in S.todo ==>
          !Harms(d, p, x, S)
  }

  ghost predicate Safe(ds: seq<Delivery>, S: Scope) { forall d <- ds :: SafeDelivery(d, S) }

  /** The weight sits on kept lines and on lines still to come, and only kept lines mind whether they are under
      execution. */
  ghost predicate Guarded(w: Weight, S: Scope, later: iset<string>) {
    forall s: bool, l: Line {:trigger w(s, l)} :: !IsKept(S, l) ==>
        w(s, l) == w(false, l) && (l.orderLine !in later ==> w(s, l) == 0.0)
  }

  ghost predicate Gentle(ds: seq<Delivery>, found: FollowUp, w: Weight, exactly: bool, S: Scope, later: iset<string>) {
    Steady(w, exactly) || FindsNothing(found) || (Safe(ds, S) && later <= S.minded && Guarded(w, S, later))
  }

  lemma NothingAllotted(kept: seq<Line>, mode: Mode, i: nat, found: FollowUp)
    requires FindsNothing(found) || forall p :: 0 <= p < |kept| ==> kept[p].qty <= kept[p].allocatedQty
    ensures NewDelivery(kept, mode, i, found).lines == kept && !NewDelivery(kept, mode, i, found).executing
  {
    var held := AllAllotted(kept, i, found);
    forall p | 0 <= p < |kept| ensures held[p] == kept[p] { assert FindsNothing(found) ==> found(i, p) <= 0.0; }
    assert held == kept;
  }

  lemma SteadyIsNoHeavier(kept: seq<Line>, mode: Mode, i: nat, found: FollowUp, w: Weight, exactly: bool)
    requires Steady(w, exactly) && ProperLines(kept) && !AnyStarted(kept)
    ensures NoHeavier(w, kept, NewDelivery(kept, mode, i, found), exactly)
  {
    var d := NewDelivery(kept, mode, i, found);
    forall p | 0 <= p < |kept| ensures NoMore(w(false, kept[p]), w(Started(d), d.lines[p]), exactly) {
      var t := RenewedAt(kept, mode, i, found, p);
      assert !LineStarted(kept[p]);
    }
  }

  lemma SameIsNoHeavier(kept: seq<Line>, mode: Mode, i: nat, found: FollowUp, w: Weight, exactly: bool)
    requires !AnyStarted(kept)
    requires FindsNothing(found) || !mode.Allocates? || forall p :: 0 <= p < |kept| ==>
        kept[p].qty <= kept[p].allocatedQty
    ensures NoHeavier(w, kept, NewDelivery(kept, mode, i, found), exactly)
  {
    if mode.Allocates? { NothingAllotted(kept, mode, i, found); }
  }

  /** Where line `p` of the delivery stands among those that are left. */
  lemma WithoutAt(lines: seq<Line>, p: nat, k: nat)
    requires p < |lines| && k < |lines| - 1
    ensures |Without(lines, p)| == |lines| - 1
    ensures Without(lines, p)[k] == lines[if k < p then k else k + 1]
  {
  }

  lemma SafeIsNoHeavier(d: Delivery, p: nat, i: nat, found: FollowUp, w: Weight, exactly: bool, S: Scope,
        later: iset<string>)
    requires p < |d.lines| && IsOpen(d) && !Started(d) && ProperLines(d.lines) && d.mode.Allocates?
    requires SafeDelivery(d, S) && later <= S.minded && Guarded(w, S, later)
    requires Emptiable(d.lines[p]) && d.lines[p].orderLine in S.todo
    ensures NoHeavier(w, Without(d.lines, p), NewDelivery(Without(d.lines, p), d.mode, i, found), exactly)
  {
    var kept := Without(d.lines, p);
    WithoutIsProper(d.lines, p);
    if Carries(d, p, S) {
      forall k | 0 <= k < |kept| ensures kept[k].qty <= kept[k].allocatedQty {
        NothingFree(d, p, k, S);
      }
      SameIsNoHeavier(kept, d.mode, i, found, w, exactly);
    } else {
      var renewed := NewDelivery(kept, d.mode, i, found);
      forall k | 0 <= k < |kept| ensures NoMore(w(false, kept[k]), w(Started(renewed), renewed.lines[k]), exactly) {
        var x := if k < p then k else k + 1;
        WithoutAt(d.lines, p, k);
        var t := RenewedAt(kept, d.mode, i, found, k);
        assert !IsKept(S, kept[k]) && !IsKept(S, renewed.lines[k]);
        if kept[k].orderLine in later { NothingFree(d, p, k, S); }
      }
    }
  }

  lemma NothingFree(d: Delivery, p: nat, k: nat, S: Scope)
    requires p < |d.lines| && k < |d.lines| - 1 && IsOpen(d) && !Started(d) && ProperLines(d.lines) && d.mode.Allocates?
    requires SafeDelivery(d, S)
    requires Emptiable(d.lines[p]) && d.lines[p].orderLine in S.todo
    requires Carries(d, p, S) || Without(d.lines, p)[k].orderLine in S.minded
    ensures Without(d.lines, p)[k].qty <= Without(d.lines, p)[k].allocatedQty
  {
    var x := if k < p then k else k + 1;
    WithoutAt(d.lines, p, k);
    NoneStarted(d);
    assert !LineStarted(d.lines[x]) && ProperLine(d.lines[x]);
    assert !Harms(d, p, x, S);
  }

  lemma RenewedIsNoHeavier(ds: seq<Delivery>, r: Ref, amount: real, id: string, found: FollowUp, w: Weight,
        exactly: bool, S: Scope, later: iset<string>)
    requires Proper(ds) && Current(ds, r, id) && !Started(ds[r.parent]) && 0.0 < Taken(r, amount)
    requires r.line.qty - Taken(r, amount) <= 0.0
    requires Gentle(ds, found, w, exactly, S, later) && id in S.todo
    ensures var d := ds[r.parent];
        NoHeavier(w, Without(d.lines, r.pos), NewDelivery(Without(d.lines, r.pos), d.mode, |ds|, found), exactly)
  {
    var d := ds[r.parent];
    NoneStarted(d);
    WithoutIsProper(d.lines, r.pos);
    if Steady(w, exactly) {
      SteadyIsNoHeavier(Without(d.lines, r.pos), d.mode, |ds|, found, w, exactly);
    } else if FindsNothing(found) || !d.mode.Allocates? {
      SameIsNoHeavier(Without(d.lines, r.pos), d.mode, |ds|, found, w, exactly);
    } else {
      assert ProperLine(r.line) && SafeDelivery(d, S);
      SafeIsNoHeavier(d, r.pos, |ds|, found, w, exactly, S, later);
    }
  }

  lemma TakeTotal(ds: seq<Delivery>, found: FollowUp, r: Ref, amount: real, id: string, w: Weight, falls: bool,
        exactly: bool, S: Scope, later: iset<string>)
    requires Proper(ds) && Current(ds, r, id)
    requires Follows(w, id, falls) && EmptyIsNothing(w, id) && Gentle(ds, found, w, exactly, S, later) && id in S.todo
    ensures TakeFrom(ds, found, r, amount).Some?
    ensures NoMore(Total(ds, w) - (if falls then Taken(r, amount) else 0.0),
        Total(TakeFrom(ds, found, r, amount).value, w), exactly)
  {
    var take, d, l := Taken(r, amount), ds[r.parent], r.line;
    if take > 0.0 {
      assert ProperLine(d.lines[r.pos]);
      var less := Less(l, take);
      assert w(Started(d), l) == w(Started(d), less) + if falls then take else 0.0;
      if l.qty - take <= 0.0 && !Started(d) {
        RenewedIsNoHeavier(ds, r, amount, id, found, w, exactly, S, later);
        RebuildTotal(ds, r.parent, Without(d.lines, r.pos), found, w, exactly);
        WithoutTotal(d.lines, r.pos, LineWorth(w, false));
        assert w(false, less) == 0.0;
      } else {
        SetQtyTotal(ds, r.parent, r.pos, l.qty - take, w);
      }
    }
  }

  lemma TakeIsProper(ds: seq<Delivery>, found: FollowUp, r: Ref, amount: real, id: string)
    requires Proper(ds) && Current(ds, r, id)
    ensures TakeFrom(ds, found, r, amount).Some? && Proper(TakeFrom(ds, found, r, amount).value)
  {
    var d := ds[r.parent];
    assert ProperLine(d.lines[r.pos]);
    if Taken(r, amount) > 0.0 {
      if r.line.qty - Taken(r, amount) <= 0.0 && !Started(d) {
        WithoutIsProper(d.lines, r.pos);
        RebuildIsProper(ds, r.parent, Without(d.lines, r.pos), found);
      } else {
        SetQtyIsProper(ds, r.parent, r.pos, r.line.qty - Taken(r, amount));
      }
    }
  }

  // ---------------------------------------------------------------- safety through the edits

  /** One line of a safe delivery loses quantity. */
  lemma LessIsSafe(d: Delivery, p: nat, q: real, S: Scope)
    requires p < |d.lines| && q <= d.lines[p].qty && SafeDelivery(d, S)
    ensures SafeDelivery(d.(lines := d.lines[p := d.lines[p].(qty := q)]), S)
  {
    var e := d.(lines := d.lines[p := d.lines[p].(qty := q)]);
    StartedIgnoresQty(d.lines, p, q);
    if IsOpen(e) && !Started(e) && e.mode.Allocates? {
      forall y: nat, x: nat | y < |e.lines| && x < |e.lines| && y != x && Emptiable(e.lines[y]) &&
          e.lines[y].orderLine in S.todo
        ensures !Harms(e, y, x, S)
      {
        assert !Harms(d, y, x, S);
        if Carries(e, y, S) {
          var k :| 0 <= k < |e.lines| && k != y && IsKept(S, e.lines[k]);
          assert IsKept(S, d.lines[k]);
        }
      }
    }
  }

  /** The delivery that replaces a safe one is safe. */
  lemma RenewedIsSafe(d: Delivery, p: nat, i: nat, found: FollowUp, S: Scope)
    requires p < |d.lines| && IsOpen(d) && !Started(d) && ProperLines(d.lines) && SafeDelivery(d, S)
    ensures SafeDelivery(NewDelivery(Without(d.lines, p), d.mode, i, found), S)
  {
    var kept := Without(d.lines, p);
    var e := NewDelivery(kept, d.mode, i, found);
    if IsOpen(e) && !Started(e) && e.mode.Allocates? {
      forall y: nat, x: nat | y < |e.lines| && x < |e.lines| && y != x && Emptiable(e.lines[y]) &&
          e.lines[y].orderLine in S.todo
        ensures !Harms(e, y, x, S)
      {
        WithoutAt(d.lines, p, y);
        WithoutAt(d.lines, p, x);
        var t := RenewedAt(kept, d.mode, i, found, y);
        var u := RenewedAt(kept, d.mode, i, found, x);
        var y', x' := if y < p then y else y + 1, if x < p then x else x + 1;
        assert ProperLine(d.lines[y']) && ProperLine(d.lines[x']);
        assert !Harms(d, y', x', S);
        if Carries(e, y, S) {
          var k :| 0 <= k < |e.lines| && k != y && IsKept(S, e.lines[k]);
          WithoutAt(d.lines, p, k);
          var v := RenewedAt(kept, d.mode, i, found, k);
          assert IsKept(S, d.lines[if k < p then k else k + 1]);
        }
      }
    }
  }

  lemma SetQtyIsSafe(ds: seq<Delivery>, i: nat, p: nat, q: real, S: Scope)
    requires i < |ds| && p < |ds[i].lines| && q <= ds[i].lines[p].qty && Safe(ds, S)
    ensures Safe(SetQty(ds, i, p, q), S)
  {
    LessIsSafe(ds[i], p, q, S);
  }

  lemma RebuildIsSafe(ds: seq<Delivery>, i: nat, p: nat, found: FollowUp, S: Scope)
    requires i < |ds| && p < |ds[i].lines| && IsOpen(ds[i]) && !Started(ds[i]) && ProperLines(ds[i].lines)
    requires Safe(ds, S)
    ensures Safe(Rebuild(ds, i, Without(ds[i].lines, p), found), S)
  {
    RenewedIsSafe(ds[i], p, |ds|, found, S);
  }

  lemma TakeIsSafe(ds: seq<Delivery>, found: FollowUp, r: Ref, amount: real, id: string, S: Scope)
    requires Proper(ds) && Current(ds, r, id) && Safe(ds, S)
    ensures TakeFrom(ds, found, r, amount).Some? && Safe(TakeFrom(ds, found, r, amount).value, S)
  {
    if Taken(r, amount) > 0.0 {
      if r.line.qty - Taken(r, amount) <= 0.0 && !Started(ds[r.parent]) {
        RebuildIsSafe(ds, r.parent, r.pos, found, S);
      } else {
        SetQtyIsSafe(ds, r.parent, r.pos, r.line.qty - Taken(r, amount), S);
      }
    }
  }

  // ---------------------------------------------------------------- the loop over the lines

  function SumFrom(refs: seq<Ref>, k: nat): (r: real)
    requires k <= |refs|
    decreases |refs| - k
  {
    if k == |refs| then 0.0 else FreeQty(refs[k].line) + SumFrom(refs, k + 1)
  }

  lemma {:induction false} SumFromNonNegative(refs: seq<Ref>, k: nat)
    requires k <= |refs|
    ensures SumFrom(refs, k) >= 0.0
    decreases |refs| - k
  {
    if k < |refs| { SumFromNonNegative(refs, k + 1); }
  }

  lemma {:induction false} SumFromIsSum(refs: seq<Ref>, k: nat)
    requires k <= |refs|
    ensures SumFrom(refs, k) == Sum(refs, FreeOf()) - Sum(refs[..k], FreeOf())
    decreases |refs| - k
  {
    if k == |refs| {
      assert refs[..k] == refs;
    } else {
      SumFromIsSum(refs, k + 1);
      assert refs[..k + 1][..k] == refs[..k];
    }
  }

  /** What holds between the turns of the loop: of the deliveries, the position, and what is left to take off. */
  type Invariant = (seq<Delivery>, nat, real) -> bool

  ghost predicate TurnKeeps(found: FollowUp, refs: seq<Ref>, inv: Invariant, ds: seq<Delivery>, k: nat, amount: real) {
    k < |refs| && inv(ds, k, amount) ==>
      AllPoint(ds, refs) && TakeFrom(ds, found, refs[k], amount).Some? &&
          inv(TakeFrom(ds, found, refs[k], amount).value, k + 1, amount - Taken(refs[k], amount))
  }

  ghost predicate TurnsKeep(found: FollowUp, refs: seq<Ref>, inv: Invariant) {
    forall ds: seq<Delivery>, k: nat, amount: real {:trigger TurnKeeps(found, refs, inv, ds, k, amount)} ::
        TurnKeeps(found, refs, inv, ds, k, amount)
  }

  /** The rule of the loop. */
  lemma {:induction false} ReduceKeeps(ds: seq<Delivery>, found: FollowUp, refs: seq<Ref>, k: nat, amount: real,
        inv: Invariant)
    requires k <= |refs| && AllPoint(ds, refs) && inv(ds, k, amount) && TurnsKeep(found, refs, inv)
    ensures Reduce(ds, found, refs, k, amount).Some?
    ensures inv(Reduce(ds, found, refs, k, amount).value.0, |refs|, Reduce(ds, found, refs, k, amount).value.1)
    decreases |refs| - k
  {
    if k < |refs| {
      assert TurnKeeps(found, refs, inv, ds, k, amount);
      StillPoint(ds, found, refs, k, amount);
      ReduceKeeps(TakeFrom(ds, found, refs[k], amount).value, found, refs, k + 1, amount - Taken(refs[k], amount), inv);
    }
  }

  /** The lines from `k` on are as the query said. */
  ghost predicate Ready(ds: seq<Delivery>, refs: seq<Ref>, k: nat, id: string) {
    Proper(ds) && AllPoint(ds, refs) && Apart(refs) && CurrentFrom(ds, refs, k, id)
  }

  lemma TakeIsReady(ds: seq<Delivery>, found: FollowUp, refs: seq<Ref>, k: nat, amount: real, id: string)
    requires k < |refs| && Ready(ds, refs, k, id)
    ensures Current(ds, refs[k], id) && TakeFrom(ds, found, refs[k], amount).Some?
    ensures Ready(TakeFrom(ds, found, refs[k], amount).value, refs, k + 1, id)
  {
    assert Current(ds, refs[k], id);
    TakeIsProper(ds, found, refs[k], amount, id);
    StillPoint(ds, found, refs, k, amount);
    var next := TakeFrom(ds, found, refs[k], amount).value;
    forall j | k < j < |refs|
      ensures Current(next, refs[j], id)
    {
      assert Current(ds, refs[j], id) && refs[j].parent != refs[k].parent;
    }
  }

  /** What the lines from `k` on cannot give. */
  function Lacking(refs: seq<Ref>, k: nat, amount: real): real
    requires k <= |refs|
  {
    Max(amount - SumFrom(refs, k), 0.0)
  }

  lemma LeftAfter(refs: seq<Ref>, k: nat, left: real)
    requires k < |refs| && left >= 0.0
    ensures left - Taken(refs[k], left) >= 0.0
    ensures Lacking(refs, k + 1, left - Taken(refs[k], left)) == Lacking(refs, k, left)
  {
    SumFromNonNegative(refs, k + 1);
  }

  ghost function Running(refs: seq<Ref>, amount: real, id: string): Invariant {
    (ds: seq<Delivery>, k: nat, left: real) => k <= |refs| && Ready(ds, refs, k, id) && left >= 0.0 &&
        Lacking(refs, k, left) == Lacking(refs, 0, amount)
  }

  lemma ReduceRuns(ds: seq<Delivery>, found: FollowUp, refs: seq<Ref>, amount: real, id: string)
    requires Ready(ds, refs, 0, id) && amount >= 0.0
    ensures Reduce(ds, found, refs, 0, amount).Some? && Proper(Reduce(ds, found, refs, 0, amount).value.0)
    ensures Reduce(ds, found, refs, 0, amount).value.1 == Max(amount - SumFrom(refs, 0), 0.0)
  {
    var inv := Running(refs, amount, id);
    forall x: seq<Delivery>, k: nat, left: real ensures TurnKeeps(found, refs, inv, x, k, left) {
      if k < |refs| && inv(x, k, left) {
        TakeIsReady(x, found, refs, k, left, id);
        LeftAfter(refs, k, left);
      }
    }
    ReduceKeeps(ds, found, refs, 0, amount, inv);
  }

  lemma GentleStays(ds: seq<Delivery>, found: FollowUp, r: Ref, amount: real, id: string, w: Weight, exactly: bool,
        S: Scope, later: iset<string>)
    requires Proper(ds) && Current(ds, r, id) && Gentle(ds, found, w, exactly, S, later)
    ensures TakeFrom(ds, found, r, amount).Some?
    ensures Gentle(TakeFrom(ds, found, r, amount).value, found, w, exactly, S, later)
  {
    TakeIsProper(ds, found, r, amount, id);
    if Safe(ds, S) { TakeIsSafe(ds, found, r, amount, id, S); }
  }

  /** What is taken off the amount is taken off the weight. */
  ghost predicate Sheds(ds: seq<Delivery>, k: nat, left: real,
        total: real, refs: seq<Ref>, amount: real, id: string, found: FollowUp, w: Weight, falls: bool, exactly: bool,
        S: Scope, later: iset<string>)
  {
    Ready(ds, refs, k, id) && Gentle(ds, found, w, exactly, S, later) &&
        NoMore(total - (if falls then amount - left else 0.0), Total(ds, w), exactly)
  }

  ghost function Shedding(total: real, refs: seq<Ref>, amount: real, id: string, found: FollowUp, w: Weight,
        falls: bool, exactly: bool, S: Scope, later: iset<string>): Invariant
  {
    (ds: seq<Delivery>, k: nat, left: real) => Sheds(ds, k, left, total, refs, amount, id, found, w, falls, exactly, S,
        later)
  }

  lemma SheddingTurn(ds: seq<Delivery>, k: nat, left: real,
        total: real, refs: seq<Ref>, amount: real, id: string, found: FollowUp, w: Weight, falls: bool, exactly: bool,
        S: Scope, later: iset<string>)
    requires Follows(w, id, falls) && EmptyIsNothing(w, id) && id in S.todo
    requires k < |refs| && Sheds(ds, k, left, total, refs, amount, id, found, w, falls, exactly, S, later)
    ensures AllPoint(ds, refs) && TakeFrom(ds, found, refs[k], left).Some?
    ensures Sheds(TakeFrom(ds, found, refs[k], left).value, k + 1, left - Taken(refs[k], left), total, refs, amount, id,
        found, w, falls, exactly, S, later)
  {
    TakeIsReady(ds, found, refs, k, left, id);
    TakeTotal(ds, found, refs[k], left, id, w, falls, exactly, S, later);
    GentleStays(ds, found, refs[k], left, id, w, exactly, S, later);
  }

  lemma SheddingAt(ds: seq<Delivery>, k: nat, left: real,
        total: real, refs: seq<Ref>, amount: real, id: string, found: FollowUp, w: Weight, falls: bool, exactly: bool,
        S: Scope, later: iset<string>)
    requires Follows(w, id, falls) && EmptyIsNothing(w, id) && id in S.todo
    ensures TurnKeeps(found, refs, Shedding(total, refs, amount, id, found, w, falls, exactly, S, later), ds, k, left)
  {
    if k < |refs| && Sheds(ds, k, left, total, refs, amount, id, found, w, falls, exactly, S, later) {
      SheddingTurn(ds, k, left, total, refs, amount, id, found, w, falls, exactly, S, later);
    }
  }

  lemma SheddingKeeps(total: real, refs: seq<Ref>, amount: real, id: string, found: FollowUp, w: Weight, falls: bool,
        exactly: bool, S: Scope, later: iset<string>)
    requires Follows(w, id, falls) && EmptyIsNothing(w, id) && id in S.todo
    ensures TurnsKeep(found, refs, Shedding(total, refs, amount, id, found, w, falls, exactly, S, later))
  {
    var inv := Shedding(total, refs, amount, id, found, w, falls, exactly, S, later);
    forall x: seq<Delivery>, k: nat, left: real ensures TurnKeeps(found, refs, inv, x, k, left) {
      SheddingAt(x, k, left, total, refs, amount, id, found, w, falls, exactly, S, later);
    }
  }

  lemma ReduceTotal(ds: seq<Delivery>, found: FollowUp, refs: seq<Ref>, amount: real, id: string, w: Weight,
        falls: bool, exactly: bool, S: Scope, later: iset<string>)
    requires Ready(ds, refs, 0, id)
    requires Follows(w, id, falls) && EmptyIsNothing(w, id) && Gentle(ds, found, w, exactly, S, later) && id in S.todo
    ensures var reduced := Reduce(ds, found, refs, 0, amount);
      reduced.Some? && NoMore(Total(ds, w) - (if falls then amount - reduced.value.1 else 0.0),
          Total(reduced.value.0, w), exactly)
  {
    var inv := Shedding(Total(ds, w), refs, amount, id, found, w, falls, exactly, S, later);
    SheddingKeeps(Total(ds, w), refs, amount, id, found, w, falls, exactly, S, later);
    assert NoMore(Total(ds, w) - (if falls then amount - amount else 0.0), Total(ds, w), exactly);
    assert inv(ds, 0, amount);
    ReduceKeeps(ds, found, refs, 0, amount, inv);
  }

  ghost function StayingSafe(refs: seq<Ref>, id: string, S: Scope): Invariant {
    (ds: seq<Delivery>, k: nat, left: real) => Ready(ds, refs, k, id) && Safe(ds, S)
  }

  lemma ReduceIsSafe(ds: seq<Delivery>, found: FollowUp, refs: seq<Ref>, amount: real, id: string, S: Scope)
    requires Ready(ds, refs, 0, id) && Safe(ds, S)
    ensures Reduce(ds, found, refs, 0, amount).Some? && Safe(Reduce(ds, found, refs, 0, amount).value.0, S)
  {
    var inv := StayingSafe(refs, id, S);
    forall x: seq<Delivery>, k: nat, left: real ensures TurnKeeps(found, refs, inv, x, k, left) {
      if k < |refs| && inv(x, k, left) {
        TakeIsReady(x, found, refs, k, left, id);
        TakeIsSafe(x, found, refs[k], left, id, S);
      }
    }
    ReduceKeeps(ds, found, refs, 0, amount, inv);
  }

  lemma GivesFirst(refs: seq<Ref>, k: nat, amount: real)
    requires k < |refs| && amount <= SumFrom(refs, k)
    ensures amount - Taken(refs[k], amount) <= SumFrom(refs, k + 1)
  {
    SumFromNonNegative(refs, k + 1);
  }

  /** A turn that both lists share. */
  lemma SharedTurn(ds: seq<Delivery>, found: FollowUp, newer: seq<Ref>, refs: seq<Ref>, k: nat,
        amount: real) returns (next: Option<seq<Delivery>>)
    requires k < |newer| && newer <= refs && AllPoint(ds, newer) && AllPoint(ds, refs)
    ensures next.None? ==> Reduce(ds, found, refs, k, amount) == Reduce(ds, found, newer, k, amount)
    ensures next.Some? ==> AllPoint(next.value, newer) && AllPoint(next.value, refs)
    ensures next.Some? ==>
        Reduce(ds, found, refs, k, amount) == Reduce(next.value, found, refs, k + 1, amount - Taken(newer[k], amount))
    ensures next.Some? ==>
        Reduce(ds, found, newer, k, amount) == Reduce(next.value, found, newer, k + 1, amount - Taken(newer[k], amount))
  {
    next := TakeFrom(ds, found, newer[k], amount);
    StillPoint(ds, found, refs, k, amount);
    StillPoint(ds, found, newer, k, amount);
  }

  /** Older deliveries lose nothing before every newer one has given all that is free. */
  lemma {:induction false} NewestGiveFirst(ds: seq<Delivery>, found: FollowUp, newer: seq<Ref>, refs: seq<Ref>, k: nat,
        amount: real)
    requires k <= |newer| && newer <= refs && AllPoint(ds, newer) && AllPoint(ds, refs)
    requires amount <= SumFrom(newer, k)
    ensures Reduce(ds, found, refs, k, amount) == Reduce(ds, found, newer, k, amount)
    decreases |newer| - k
  {
    if k < |newer| {
      var next := SharedTurn(ds, found, newer, refs, k, amount);
      GivesFirst(newer, k, amount);
      if next.Some? { NewestGiveFirst(next.value, found, newer, refs, k + 1, amount - Taken(newer[k], amount)); }
    } else {
      NothingLeft(ds, found, refs, k, amount);
    }
  }

  // ---------------------------------------------------------------- one order line

  function More(l: Line, t: real): Line { l.(qty := l.qty + t) }

  function CreatedLine(order: string, id: string, qty: real): Line { Line(order, id, qty, 0.0, 0.0, 0.0) }

  /** A weight that changes to the lines of `id` can only lower, or (`exactly`) cannot move at all. */
  ghost predicate Harmless(w: Weight, id: string, exactly: bool) {
    && Follows(w, id, false)
    && EmptyIsNothing(w, id)
    && (forall s: bool, l: Line, t: real {:trigger w(s, More(l, t))} :: l.orderLine == id && t > 0.0 ==>
        w(s, More(l, t)) <= w(s, l) && (exactly ==> w(s, More(l, t)) == w(s, l)))
    && (forall order: string, t: real {:trigger w(false, CreatedLine(order, id, t))} :: t > 0.0 ==>
        w(false, CreatedLine(order, id, t)) <= 0.0 && (exactly ==> w(false, CreatedLine(order, id, t)) == 0.0))
  }

  predicate SomeUnstarted(ds: seq<Delivery>, refs: seq<Ref>, k: nat)
    requires AllPoint(ds, refs)
  {
    exists j :: k <= j < |refs| && !Started(ds[refs[j].parent])
  }

  lemma {:induction false} GrowGrowsOne(ds: seq<Delivery>, refs: seq<Ref>, k: nat, diff: real) returns (j: nat)
    requires k <= |refs| && AllPoint(ds, refs)
    ensures SomeUnstarted(ds, refs, k) ==> j < |refs| && !Started(ds[refs[j].parent])
    ensures SomeUnstarted(ds, refs, k) ==>
        Grow(ds, refs, k, diff) == SetQty(ds, refs[j].parent, refs[j].pos, refs[j].line.qty + diff)
    ensures !SomeUnstarted(ds, refs, k) ==> Grow(ds, refs, k, diff) == ds
    decreases |refs| - k
  {
    j := k;
    if k < |refs| && Started(ds[refs[k].parent]) { j := GrowGrowsOne(ds, refs, k + 1, diff); }
  }

  lemma NoneStarted(d: Delivery)
    requires !Started(d)
    ensures forall p :: 0 <= p < |d.lines| ==> !LineStarted(d.lines[p])
  {
  }

  lemma GrowTotal(ds: seq<Delivery>, refs: seq<Ref>, diff: real, id: string)
    requires Proper(ds) && AllPoint(ds, refs) && CurrentFrom(ds, refs, 0, id) && diff > 0.0
    ensures Proper(Grow(ds, refs, 0, diff))
    ensures Total(Grow(ds, refs, 0, diff), OnLine(id, OpenPart())) ==
        Total(ds, OnLine(id, OpenPart())) + if SomeUnstarted(ds, refs, 0) then diff else 0.0
  {
    var k := GrowGrowsOne(ds, refs, 0, diff);
    if SomeUnstarted(ds, refs, 0) { MoreTotal(ds, refs[k], diff, id); }
  }

  lemma MoreTotal(ds: seq<Delivery>, r: Ref, diff: real, id: string)
    requires Proper(ds) && Current(ds, r, id) && !Started(ds[r.parent]) && diff > 0.0
    ensures Proper(SetQty(ds, r.parent, r.pos, r.line.qty + diff))
    ensures Total(SetQty(ds, r.parent, r.pos, r.line.qty + diff), OnLine(id, OpenPart())) ==
        Total(ds, OnLine(id, OpenPart())) + diff
  {
    NoneStarted(ds[r.parent]);
    assert ProperLine(r.line) && r.line.done == 0.0;
    SetQtyTotal(ds, r.parent, r.pos, r.line.qty + diff, OnLine(id, OpenPart()));
    SetQtyIsProper(ds, r.parent, r.pos, r.line.qty + diff);
  }

  lemma GrowIsHarmless(ds: seq<Delivery>, refs: seq<Ref>, diff: real, id: string, w: Weight, exactly: bool)
    requires AllPoint(ds, refs) && CurrentFrom(ds, refs, 0, id) && diff > 0.0 && Harmless(w, id, exactly)
    ensures NoMore(Total(ds, w), Total(Grow(ds, refs, 0, diff), w), exactly)
  {
    var k := GrowGrowsOne(ds, refs, 0, diff);
    if SomeUnstarted(ds, refs, 0) {
      var r := refs[k];
      assert Current(ds, r, id);
      SetQtyTotal(ds, r.parent, r.pos, r.line.qty + diff, w);
      assert w(false, More(r.line, diff)) <= w(false, r.line);
    }
  }

  lemma UnstartedAmongBoth(ds: seq<Delivery>, before: seq<Ref>, here: seq<Ref>, m: nat)
    requires m < |ds| && AllPoint(ds, before) && AllPoint(ds, here)
    requires forall j :: 0 <= j < |here| ==> here[j].parent == m
    ensures AllPoint(ds, before + here)
    ensures SomeUnstarted(ds, before + here, 0) <==> SomeUnstarted(ds, before, 0) || (|here| > 0 && !Started(ds[m]))
  {
    var all := before + here;
    assert forall j :: 0 <= j < |before| ==> all[j] == before[j];
    if |here| > 0 { assert all[|before|] == here[0]; }
  }

  lemma {:induction false} GrowableTotal(ds: seq<Delivery>, n: nat, id: string)
    requires n <= |ds|
    ensures AllPoint(ds, Refs(ds[..n], id))
    ensures Total(ds[..n], Growable(id)) >= 0.0
    ensures Total(ds[..n], Growable(id)) > 0.0 <==> SomeUnstarted(ds, Refs(ds[..n], id), 0)
  {
    if n != 0 {
      var d, m := ds[n - 1], n - 1;
      GrowableTotal(ds, m, id);
      assert ds[..n][..m] == ds[..m];
      var before, here := Refs(ds[..m], id), LineRefs(d.lines, m, id);
      LineRefsPoint(d.lines, m, id);
      forall j | 0 <= j < |here| ensures here[j].parent == m && Points(ds, here[j]) { assert here[j] in here; }
      UnstartedAmongBoth(ds, before, here, m);
      LineRefsTotal(d.lines, m, id, One(), Started(d));
      SumOfOnes(here);
      GrowableLines(d.lines, Started(d), id);
      assert before + [] == before;
    }
  }

  lemma GrowableLines(lines: seq<Line>, started: bool, id: string)
    ensures Sum(lines, LineWorth(Growable(id), started)) == if started then 0.0
        else Sum(lines, LineWorth(OnLine(id, One()), started))
  {
    if started {
      GrowableStarted(lines, id);
    } else {
      SumAgree(lines, lines, LineWorth(Growable(id), started), LineWorth(OnLine(id, One()), started));
    }
  }

  lemma {:induction false} GrowableStarted(lines: seq<Line>, id: string)
    ensures Sum(lines, LineWorth(Growable(id), true)) == 0.0
  {
    if |lines| != 0 { GrowableStarted(lines[..|lines| - 1], id); }
  }

  /** All that the change of an order line looks at. */
  datatype View = View(open: real, free: real, lines: real, growable: real)

  function ViewOf(ds: seq<Delivery>, id: string): View {
    View(OnWms(ds, id), FreeOnWms(ds, id), LinesOnWms(ds, id), Total(ds, Growable(id)))
  }

  function Wanted(row: OrderLine): real { row.ordered - row.done }

  /** When the warehouse goes along with the change of an order line. */
  predicate Accepts(v: View, blocks: bool, row: OrderLine) {
    v.lines == 0.0 || Wanted(row) == v.open || (!blocks && v.open - Wanted(row) <= v.free)
  }

  /** What the warehouse then handles, before anything new is created. */
  function Adapted(v: View, row: OrderLine): real {
    if v.lines > 0.0 && (Wanted(row) < v.open || v.growable > 0.0) then Wanted(row) else v.open
  }

  lemma OpenFollows(id: string)
    ensures Follows(OnLine(id, OpenPart()), id, true) && EmptyIsNothing(OnLine(id, OpenPart()), id)
  {
  }

  lemma OpenIsSteady(id: string)
    ensures Steady(OnLine(id, OpenPart()), true) && Steady(OnLine(id, One()), true)
  {
  }

  lemma FreeIsSteady(id: string)
    ensures Steady(OnLine(id, FreePart()), false) && Steady(Growable(id), false)
  {
  }

  /** A scope in which nothing but one order line is still to come. */
  function Alone(id: string): Scope { Scope(iset{id}, iset{id}, iset{}, (order: string, orderLine: string) => false) }

  lemma OpenLinesMeasure(ds: seq<Delivery>, names: Naming, id: string)
    ensures |OpenLines(ds, names, id)| as real == LinesOnWms(ds, id)
    ensures Sum(OpenLines(ds, names, id), OpenOf()) == OnWms(ds, id)
  {
    RefsMeasures(ds, id);
    SortPermutes(Refs(ds, id), AsListed(names));
    SumPermutation(Refs(ds, id), OpenLines(ds, names, id), OpenOf());
  }

  lemma NewestLinesMeasure(ds: seq<Delivery>, names: Naming, id: string)
    ensures SumFrom(NewestLines(ds, names, id), 0) == FreeOnWms(ds, id)
  {
    var listed, sorted := OpenLines(ds, names, id), NewestLines(ds, names, id);
    RefsMeasures(ds, id);
    SortPermutes(Refs(ds, id), AsListed(names));
    SortPermutes(listed, NewestFirst(names));
    SumPermutation(Refs(ds, id), sorted, FreeOf());
    SumFromIsSum(sorted, 0);
    assert sorted[..0] == [];
  }

  lemma NewestLinesReady(ds: seq<Delivery>, names: Naming, id: string)
    requires Proper(ds) && id != ""
    ensures Ready(ds, NewestLines(ds, names, id), 0, id) && SumFrom(NewestLines(ds, names, id), 0) == FreeOnWms(ds, id)
  {
    OpenLinesPoint(ds, names, id);
    RefsApart(ds, id);
    SortApart(Refs(ds, id), AsListed(names));
    SortApart(OpenLines(ds, names, id), NewestFirst(names));
    NewestLinesMeasure(ds, names, id);
  }

  lemma UnstartedAnyOrder(ds: seq<Delivery>, refs: seq<Ref>, listed: seq<Ref>)
    requires multiset(refs) == multiset(listed) && AllPoint(ds, refs) && AllPoint(ds, listed)
    ensures SomeUnstarted(ds, refs, 0) <==> SomeUnstarted(ds, listed, 0)
  {
    if SomeUnstarted(ds, refs, 0) {
      var j :| 0 <= j < |refs| && !Started(ds[refs[j].parent]);
      assert refs[j] in multiset(listed);
    }
    if SomeUnstarted(ds, listed, 0) {
      var j :| 0 <= j < |listed| && !Started(ds[listed[j].parent]);
      assert listed[j] in multiset(refs);
    }
  }

  lemma RowShrinks(ds: seq<Delivery>, names: Naming, found: FollowUp, id: string, amount: real)
    requires Proper(ds) && id != "" && amount > 0.0
    ensures AllPoint(ds, NewestLines(ds, names, id))
    ensures var reduced := Reduce(ds, found, NewestLines(ds, names, id), 0, amount);
      reduced.Some? && Proper(reduced.value.0) && (reduced.value.1 > 0.0 <==> amount > FreeOnWms(ds, id))
      && (reduced.value.1 <= 0.0 ==> OnWms(reduced.value.0, id) == OnWms(ds, id) - amount)
  {
    NewestLinesReady(ds, names, id);
    OpenFollows(id);
    OpenIsSteady(id);
    ReduceRuns(ds, found, NewestLines(ds, names, id), amount, id);
    ReduceTotal(ds, found, NewestLines(ds, names, id), amount, id, OnLine(id, OpenPart()), true, true, Alone(id),
        iset{});
  }

  lemma GrowableListed(ds: seq<Delivery>, names: Naming, id: string)
    ensures AllPoint(ds, OpenLines(ds, names, id))
    ensures Total(ds, Growable(id)) > 0.0 <==> SomeUnstarted(ds, OpenLines(ds, names, id), 0)
  {
    OpenLinesPoint(ds, names, id);
    GrowableTotal(ds, |ds|, id);
    assert ds[..|ds|] == ds;
    SortPermutes(Refs(ds, id), AsListed(names));
    UnstartedAnyOrder(ds, Refs(ds, id), OpenLines(ds, names, id));
  }

  lemma RowGrows(ds: seq<Delivery>, names: Naming, id: string, diff: real)
    requires Proper(ds) && diff > 0.0
    ensures AllPoint(ds, OpenLines(ds, names, id)) && Proper(Grow(ds, OpenLines(ds, names, id), 0, diff))
    ensures OnWms(Grow(ds, OpenLines(ds, names, id), 0, diff), id) ==
        OnWms(ds, id) + if Total(ds, Growable(id)) > 0.0 then diff else 0.0
  {
    OpenLinesPoint(ds, names, id);
    GrowableListed(ds, names, id);
    GrowTotal(ds, OpenLines(ds, names, id), diff, id);
  }

  /** The change of an order line, told by the totals. */
  function Following(ds: seq<Delivery>, names: Naming, found: FollowUp, blocks: bool, row: OrderLine,
        diff: real): Option<seq<Delivery>>
  {
    if diff == 0.0 then Some(ds)
    else if blocks then None
    else if diff < 0.0 then
      OpenLinesPoint(ds, names, row.id);
      match Reduce(ds, found, NewestLines(ds, names, row.id), 0, -diff)
      case None => None
      case Some(reduced) => if reduced.1 > 0.0 then None else Some(reduced.0)
    else
      OpenLinesPoint(ds, names, row.id);
      Some(Grow(ds, OpenLines(ds, names, row.id), 0, diff))
  }

  lemma RowFollows(ds: seq<Delivery>, names: Naming, found: FollowUp, blocks: bool, row: OrderLine)
    ensures LinesOnWms(ds, row.id) >= 0.0 && FreeOnWms(ds, row.id) >= 0.0
    ensures LinesOnWms(ds, row.id) == 0.0 ==> UpdateRow(ds, names, found, blocks, row) == Some(ds)
    ensures LinesOnWms(ds, row.id) > 0.0 ==>
        UpdateRow(ds, names, found, blocks, row) ==
            Following(ds, names, found, blocks, row, Wanted(row) - OnWms(ds, row.id))
  {
    RefsMeasures(ds, row.id);
    OpenLinesMeasure(ds, names, row.id);
    FreeIsNotNegative(Refs(ds, row.id));
  }

  /** How much of the change arrives. */
  function Arriving(ds: seq<Delivery>, id: string, diff: real): real {
    if diff < 0.0 || Total(ds, Growable(id)) > 0.0 then diff else 0.0
  }

  lemma FollowingUpdate(ds: seq<Delivery>, names: Naming, found: FollowUp, blocks: bool, row: OrderLine, diff: real)
    requires Proper(ds) && row.id != "" && FreeOnWms(ds, row.id) >= 0.0
    ensures var next := Following(ds, names, found, blocks, row, diff);
      && (next.Some? <==> diff == 0.0 || (!blocks && -diff <= FreeOnWms(ds, row.id)))
      && (next.Some? ==> Proper(next.value))
      && (next.Some? ==> OnWms(next.value, row.id) == OnWms(ds, row.id) + Arriving(ds, row.id, diff))
  {
    if diff < 0.0 {
      RowShrinks(ds, names, found, row.id, -diff);
    } else if diff > 0.0 {
      RowGrows(ds, names, row.id, diff);
    }
  }

  lemma RowUpdate(ds: seq<Delivery>, names: Naming, found: FollowUp, blocks: bool, row: OrderLine)
    requires Proper(ds) && row.id != ""
    ensures UpdateRow(ds, names, found, blocks, row).Some? <==> Accepts(ViewOf(ds, row.id), blocks, row)
    ensures UpdateRow(ds, names, found, blocks, row).Some? ==> Proper(UpdateRow(ds, names, found, blocks, row).value)
    ensures UpdateRow(ds, names, found, blocks, row).Some? ==>
        OnWms(UpdateRow(ds, names, found, blocks, row).value, row.id) == Adapted(ViewOf(ds, row.id), row)
  {
    RowFollows(ds, names, found, blocks, row);
    FollowingUpdate(ds, names, found, blocks, row, Wanted(row) - OnWms(ds, row.id));
  }

  lemma FreeIsNotNegative(refs: seq<Ref>)
    ensures Sum(refs, FreeOf()) >= 0.0
  {
    SumNonNegative(refs, FreeOf());
  }

  /** What lets a weight go through the change of an order line unharmed. */
  ghost predicate RowGentle(ds: seq<Delivery>, found: FollowUp, w: Weight, exactly: bool, S: Scope, later: iset<string>,
        id: string)
  {
    Steady(w, exactly) || FindsNothing(found) ||
        (Safe(ds, S) && later <= S.minded && Guarded(w, S, later) && id in S.todo)
  }

  lemma GentleScope(ds: seq<Delivery>, found: FollowUp, w: Weight, exactly: bool, S: Scope, later: iset<string>,
        id: string) returns (T: Scope)
    requires RowGentle(ds, found, w, exactly, S, later, id)
    ensures Gentle(ds, found, w, exactly, T, later) && id in T.todo
  {
    T := if Steady(w, exactly) || FindsNothing(found) then Alone(id) else S;
  }

  lemma RowShrinksHarmlessly(ds: seq<Delivery>, names: Naming, found: FollowUp, id: string, amount: real, w: Weight,
        exactly: bool, S: Scope, later: iset<string>)
    requires Proper(ds) && id != "" && amount > 0.0 && Harmless(w, id, exactly)
    requires Gentle(ds, found, w, exactly, S, later) && id in S.todo
    ensures AllPoint(ds, NewestLines(ds, names, id))
    ensures var reduced := Reduce(ds, found, NewestLines(ds, names, id), 0, amount);
        reduced.Some? && NoMore(Total(ds, w), Total(reduced.value.0, w), exactly)
  {
    NewestLinesReady(ds, names, id);
    ReduceTotal(ds, found, NewestLines(ds, names, id), amount, id, w, false, exactly, S, later);
  }

  /** A row's change is one reduction or one growth, or nothing. */
  function Adjusted(ds: seq<Delivery>, names: Naming, found: FollowUp, id: string, diff: real): Option<seq<Delivery>> {
    if diff < 0.0 then
      OpenLinesPoint(ds, names, id);
      match Reduce(ds, found, NewestLines(ds, names, id), 0, -diff)
      case None => None
      case Some(reduced) => Some(reduced.0)
    else if diff > 0.0 then
      OpenLinesPoint(ds, names, id);
      Some(Grow(ds, OpenLines(ds, names, id), 0, diff))
    else Some(ds)
  }

  lemma RowAdjusts(ds: seq<Delivery>, names: Naming, found: FollowUp, blocks: bool, row: OrderLine) returns (diff: real)
    requires UpdateRow(ds, names, found, blocks, row).Some?
    ensures Adjusted(ds, names, found, row.id, diff) == UpdateRow(ds, names, found, blocks, row)
    ensures diff > 0.0 ==> diff == Wanted(row) - OnWms(ds, row.id)
  {
    var refs := OpenLines(ds, names, row.id);
    OpenLinesMeasure(ds, names, row.id);
    diff := if |refs| == 0 then 0.0 else row.ordered - row.done - Sum(refs, OpenOf());
  }

  lemma AdjustedIsHarmless(ds: seq<Delivery>, names: Naming, found: FollowUp, id: string, diff: real, w: Weight,
        exactly: bool, S: Scope, later: iset<string>)
    requires Proper(ds) && id != "" && Harmless(w, id, exactly) && Gentle(ds, found, w, exactly, S, later)
    requires id in S.todo
    requires Adjusted(ds, names, found, id, diff).Some?
    ensures NoMore(Total(ds, w), Total(Adjusted(ds, names, found, id, diff).value, w), exactly)
  {
    if diff < 0.0 {
      RowShrinksHarmlessly(ds, names, found, id, -diff, w, exactly, S, later);
    } else if diff > 0.0 {
      OpenLinesPoint(ds, names, id);
      GrowIsHarmless(ds, OpenLines(ds, names, id), diff, id, w, exactly);
    }
  }

  lemma RowIsHarmless(ds: seq<Delivery>, names: Naming, found: FollowUp, blocks: bool, row: OrderLine, w: Weight,
        exactly: bool, S: Scope, later: iset<string>)
    requires Proper(ds) && row.id != "" && Harmless(w, row.id, exactly)
    requires RowGentle(ds, found, w, exactly, S, later, row.id)
    requires UpdateRow(ds, names, found, blocks, row).Some?
    ensures NoMore(Total(ds, w), Total(UpdateRow(ds, names, found, blocks, row).value, w), exactly)
  {
    var diff := RowAdjusts(ds, names, found, blocks, row);
    var T := GentleScope(ds, found, w, exactly, S, later, row.id);
    AdjustedIsHarmless(ds, names, found, row.id, diff, w, exactly, T, later);
  }

  function Past(S: Scope, ids: iset<string>): Scope { S.(todo := S.todo - ids, minded := S.minded - ids) }

  lemma PastIsSafe(d: Delivery, S: Scope, ids: iset<string>)
    requires SafeDelivery(d, S)
    ensures SafeDelivery(d, Past(S, ids))
  {
    if IsOpen(d) && !Started(d) && d.mode.Allocates? {
      forall p: nat, x: nat | p < |d.lines| && x < |d.lines| && p != x && Emptiable(d.lines[p]) &&
          d.lines[p].orderLine in Past(S, ids).todo
        ensures !Harms(d, p, x, Past(S, ids))
      {
        assert !Harms(d, p, x, S);
        SameCarries(d, d, p, S, Past(S, ids));
      }
    }
  }

  lemma SameCarries(d: Delivery, e: Delivery, p: nat, S: Scope, T: Scope)
    requires S.kept == T.kept && |d.lines| == |e.lines|
    requires forall y ::
        0 <= y < |d.lines| ==> d.lines[y].order == e.lines[y].order && d.lines[y].orderLine == e.lines[y].orderLine
    ensures Carries(d, p, S) == Carries(e, p, T)
  {
    if y :| 0 <= y < |d.lines| && y != p && IsKept(S, d.lines[y]) { assert IsKept(T, e.lines[y]); }
    if y :| 0 <= y < |e.lines| && y != p && IsKept(T, e.lines[y]) { assert IsKept(S, d.lines[y]); }
  }

  /** A line that grows is no longer to come. */
  lemma MoreIsSafe(d: Delivery, p: nat, t: real, S: Scope)
    requires p < |d.lines| && SafeDelivery(d, S) && d.lines[p].orderLine in S.raised && !IsKept(S, d.lines[p])
    ensures SafeDelivery(d.(lines := d.lines[p := More(d.lines[p], t)]), Past(S, iset{d.lines[p].orderLine}))
  {
    var e, T := d.(lines := d.lines[p := More(d.lines[p], t)]), Past(S, iset{d.lines[p].orderLine});
    StartedIgnoresQty(d.lines, p, d.lines[p].qty + t);
    if IsOpen(e) && !Started(e) && e.mode.Allocates? {
      forall y: nat, x: nat | y < |e.lines| && x < |e.lines| && y != x && Emptiable(e.lines[y]) &&
          e.lines[y].orderLine in T.todo
        ensures !Harms(e, y, x, T)
      {
        assert y != p && e.lines[y] == d.lines[y];
        assert !Harms(d, y, x, S);
        SameCarries(d, e, y, S, T);
      }
    }
  }

  predicate NotKept(S: Scope, id: string, l: Line) { l.orderLine == id ==> !IsKept(S, l) }

  ghost predicate NeverKept(S: Scope, id: string) { forall l: Line :: NotKept(S, id, l) }

  /** The change of an order line is covered by the scope. */
  ghost predicate FitsRow(ds: seq<Delivery>, row: OrderLine, S: Scope) {
    && row.id != ""
    && row.id in S.todo
    && (Wanted(row) > OnWms(ds, row.id) ==> row.id in S.raised)
    && NeverKept(S, row.id)
  }

  lemma RowIsSafe(ds: seq<Delivery>, names: Naming, found: FollowUp, blocks: bool, row: OrderLine, S: Scope)
    requires Proper(ds) && Safe(ds, S) && FitsRow(ds, row, S)
    requires UpdateRow(ds, names, found, blocks, row).Some?
    ensures Safe(UpdateRow(ds, names, found, blocks, row).value, Past(S, iset{row.id}))
  {
    var diff := RowAdjusts(ds, names, found, blocks, row);
    if diff > 0.0 {
      OpenLinesPoint(ds, names, row.id);
      RowGrowsSafely(ds, OpenLines(ds, names, row.id), diff, row.id, S);
    } else {
      RowShrinksSafely(ds, names, found, row.id, diff, S);
    }
  }

  lemma RowShrinksSafely(ds: seq<Delivery>, names: Naming, found: FollowUp, id: string, diff: real, S: Scope)
    requires Proper(ds) && Safe(ds, S) && id != "" && diff <= 0.0 && Adjusted(ds, names, found, id, diff).Some?
    ensures Safe(Adjusted(ds, names, found, id, diff).value, Past(S, iset{id}))
  {
    if diff < 0.0 {
      NewestLinesReady(ds, names, id);
      ReduceIsSafe(ds, found, NewestLines(ds, names, id), -diff, id, S);
    }
    AllPastAreSafe(Adjusted(ds, names, found, id, diff).value, S, iset{id});
  }

  lemma AllPastAreSafe(ds: seq<Delivery>, S: Scope, ids: iset<string>)
    requires Safe(ds, S)
    ensures Safe(ds, Past(S, ids))
  {
    forall d | d in ds ensures SafeDelivery(d, Past(S, ids)) { PastIsSafe(d, S, ids); }
  }

  lemma RowGrowsSafely(ds: seq<Delivery>, refs: seq<Ref>, diff: real, id: string, S: Scope)
    requires Proper(ds) && Safe(ds, S) && AllPoint(ds, refs) && CurrentFrom(ds, refs, 0, id) && id in S.raised
    requires NeverKept(S, id)
    ensures Safe(Grow(ds, refs, 0, diff), Past(S, iset{id}))
  {
    var k := GrowGrowsOne(ds, refs, 0, diff);
    AllPastAreSafe(ds, S, iset{id});
    if SomeUnstarted(ds, refs, 0) {
      var r := refs[k];
      assert Current(ds, r, id) && NotKept(S, id, r.line);
      MoreIsSafe(ds[r.parent], r.pos, diff, S);
    }
  }

  lemma OthersAreIgnored(id: string, other: string)
    requires id != other
    ensures Harmless(OnLine(other, OpenPart()), id, true) && Harmless(OnLine(other, FreePart()), id, true)
    ensures Harmless(OnLine(other, One()), id, true) && Harmless(Growable(other), id, true)
  {
  }
}
