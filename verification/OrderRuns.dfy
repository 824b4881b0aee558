/** An order update as a run of steps: one for each order line, one for each new delivery. */
module OrderRuns {
  import opened Basics
  import opened Sums
  import opened Sorting
  import opened OrderUpdate
  import opened OrderTotals
  import opened OrderRows

  // ---------------------------------------------------------------- new deliveries

  ghost predicate Distinct(rows: seq<OrderLine>) {
    && (forall k :: 0 <= k < |rows| ==> rows[k].id != "")
    && (forall j, k :: 0 <= j < k < |rows| ==> rows[j].id != rows[k].id)
  }

  predicate Among(rows: seq<OrderLine>, id: string) { exists k :: 0 <= k < |rows| && rows[k].id == id }

  ghost predicate AllHarmless(w: Weight, rows: seq<OrderLine>, exactly: bool) {
    forall k :: 0 <= k < |rows| ==> Harmless(w, rows[k].id, exactly)
  }

  ghost predicate IsNewLine(l: Line, order: string, rows: seq<OrderLine>) {
    l.qty > 0.0 && l == CreatedLine(order, l.orderLine, l.qty) && Among(rows, l.orderLine)
  }

  lemma {:induction false} NewLinesAre(ds: seq<Delivery>, order: string, rows: seq<OrderLine>)
    requires Distinct(rows)
    ensures forall p :: 0 <= p < |NewLines(ds, order, rows)| ==> IsNewLine(NewLines(ds, order, rows)[p], order, rows)
    ensures ProperLines(NewLines(ds, order, rows)) && !AnyStarted(NewLines(ds, order, rows))
  {
    var n := |rows| - 1;
    if |rows| != 0 {
      NewLinesAre(ds, order, rows[..n]);
      var before, lines := NewLines(ds, order, rows[..n]), NewLines(ds, order, rows);
      forall p | 0 <= p < |lines|
        ensures IsNewLine(lines[p], order, rows) && (p < |before| ==> lines[p].orderLine != rows[n].id)
      {
        if p < |before| {
          assert lines[p] == before[p] && IsNewLine(before[p], order, rows[..n]);
          var k :| 0 <= k < |rows[..n]| && rows[..n][k].id == lines[p].orderLine;
          assert rows[k].id == lines[p].orderLine;
        } else {
          assert rows[n].id == lines[p].orderLine;
        }
      }
    }
  }

  lemma NewLinesGrow(ds: seq<Delivery>, order: string, rows: seq<OrderLine>, f: Line -> real)
    requires |rows| > 0
    ensures var n := |rows| - 1; var qty := Outstanding(ds, rows[n]);
      Sum(NewLines(ds, order, rows), f) ==
          Sum(NewLines(ds, order, rows[..n]), f) + if qty > 0.0 then f(CreatedLine(order, rows[n].id, qty)) else 0.0
  {
    var n := |rows| - 1;
    var qty := Outstanding(ds, rows[n]);
    SumConcat(NewLines(ds, order, rows[..n]), if qty > 0.0 then [CreatedLine(order, rows[n].id, qty)] else [], f);
  }

  lemma {:induction false} NewLinesOfOthers(ds: seq<Delivery>, order: string, rows: seq<OrderLine>, id: string)
    requires !Among(rows, id)
    ensures Sum(NewLines(ds, order, rows), LineWorth(OnLine(id, OpenPart()), false)) == 0.0
  {
    if |rows| != 0 {
      NewLinesOfOthers(ds, order, rows[..|rows| - 1], id);
      NewLinesGrow(ds, order, rows, LineWorth(OnLine(id, OpenPart()), false));
    }
  }

  lemma {:induction false} NewLinesTotal(ds: seq<Delivery>, order: string, rows: seq<OrderLine>, k: nat)
    requires Distinct(rows) && k < |rows|
    ensures Sum(NewLines(ds, order, rows), LineWorth(OnLine(rows[k].id, OpenPart()), false)) ==
        Max(Outstanding(ds, rows[k]), 0.0)
  {
    var n, id := |rows| - 1, rows[k].id;
    NewLinesGrow(ds, order, rows, LineWorth(OnLine(id, OpenPart()), false));
    if k == n {
      NewLinesOfOthers(ds, order, rows[..n], id);
    } else {
      NewLinesTotal(ds, order, rows[..n], k);
    }
  }

  lemma {:induction false} NewLinesAreHarmless(ds: seq<Delivery>, order: string, rows: seq<OrderLine>, w: Weight,
        exactly: bool)
    requires AllHarmless(w, rows, exactly)
    ensures NoMore(0.0, Sum(NewLines(ds, order, rows), LineWorth(w, false)), exactly)
  {
    var n := |rows| - 1;
    if |rows| != 0 {
      assert AllHarmless(w, rows[..n], exactly);
      NewLinesAreHarmless(ds, order, rows[..n], w, exactly);
      NewLinesGrow(ds, order, rows, LineWorth(w, false));
      var qty := Outstanding(ds, rows[n]);
      assert Harmless(w, rows[n].id, exactly);
      if qty > 0.0 { assert w(false, CreatedLine(order, rows[n].id, qty)) <= 0.0; }
    }
  }

  lemma CreateTotal(ds: seq<Delivery>, found: FollowUp, order: string, group: Group, w: Weight, exactly: bool)
    requires NoHeavier(w, NewLines(ds, order, group.rows),
        NewDelivery(NewLines(ds, order, group.rows), group.mode, |ds|, found), exactly)
    ensures NoMore(Total(ds, w) + Sum(NewLines(ds, order, group.rows), LineWorth(w, false)),
        Total(CreateDelivery(ds, found, order, group), w), exactly)
  {
    var lines := NewLines(ds, order, group.rows);
    if |lines| != 0 {
      var created := NewDelivery(lines, group.mode, |ds|, found);
      WorthNoHeavier(w, lines, created, exactly);
      SumConcat(ds, [created], WorthOf(w));
    }
  }

  lemma CreateIsProper(ds: seq<Delivery>, found: FollowUp, order: string, group: Group)
    requires Proper(ds) && Distinct(group.rows)
    ensures Proper(CreateDelivery(ds, found, order, group))
  {
    NewLinesAre(ds, order, group.rows);
    RenewedIsProper(NewLines(ds, order, group.rows), group.mode, |ds|, found);
  }

  lemma CreateSteadyTotal(ds: seq<Delivery>, found: FollowUp, order: string, group: Group, w: Weight)
    requires Distinct(group.rows) && Steady(w, true)
    ensures Total(CreateDelivery(ds, found, order, group), w) ==
        Total(ds, w) + Sum(NewLines(ds, order, group.rows), LineWorth(w, false))
  {
    NewLinesAre(ds, order, group.rows);
    SteadyIsNoHeavier(NewLines(ds, order, group.rows), group.mode, |ds|, found, w, true);
    CreateTotal(ds, found, order, group, w, true);
  }

  /** What a new delivery adds for one of its order lines. */
  lemma CreateAdds(ds: seq<Delivery>, found: FollowUp, order: string, group: Group, k: nat)
    requires Distinct(group.rows) && k < |group.rows|
    ensures OnWms(CreateDelivery(ds, found, order, group), group.rows[k].id) ==
        Max(OnWms(ds, group.rows[k].id), Wanted(group.rows[k]))
  {
    var id := group.rows[k].id;
    NewLinesTotal(ds, order, group.rows, k);
    OpenIsSteady(id);
    CreateSteadyTotal(ds, found, order, group, OnLine(id, OpenPart()));
    RefsMeasures(ds, id);
  }

  // ---------------------------------------------------------------- the steps of an update

  datatype Step = RowStep(blocks: bool, row: OrderLine) | CreateStep(group: Group)

  function Do(ds: seq<Delivery>, names: Naming, found: FollowUp, order: string, step: Step): Option<seq<Delivery>> {
    match step
    case RowStep(blocks, row) => UpdateRow(ds, names, found, blocks, row)
    case CreateStep(group) => Some(if group.replicates then CreateDelivery(ds, found, order, group) else ds)
  }

  function Run(ds: seq<Delivery>, names: Naming, found: FollowUp, order: string,
        steps: seq<Step>): Option<seq<Delivery>>
    decreases |steps|
  {
    if |steps| == 0 then Some(ds)
    else
      match Do(ds, names, found, order, steps[0])
      case None => None
      case Some(next) => Run(next, names, found, order, steps[1..])
  }

  ghost predicate Named(step: Step) {
    match step case RowStep(_, row) => row.id != "" case CreateStep(group) => Distinct(group.rows)
  }

  ghost predicate HarmlessStep(w: Weight, step: Step, exactly: bool) {
    match step
    case RowStep(_, row) => Harmless(w, row.id, exactly)
    case CreateStep(group) => AllHarmless(w, group.rows, exactly)
  }

  /** New deliveries carry only order lines whose own change is done. */
  ghost predicate FitsStep(ds: seq<Delivery>, step: Step, S: Scope) {
    match step
    case RowStep(_, row) => FitsRow(ds, row, S)
    case CreateStep(group) =>
      forall k :: 0 <= k < |group.rows| ==> group.rows[k].id !in S.todo + S.minded && NeverKept(S, group.rows[k].id)
  }

  function After(S: Scope, step: Step): Scope {
    match step case RowStep(_, row) => Past(S, iset{row.id}) case CreateStep(_) => S
  }

  ghost predicate StepGentle(ds: seq<Delivery>, found: FollowUp, w: Weight, exactly: bool, S: Scope,
        later: iset<string>, step: Step)
  {
    Steady(w, exactly) || FindsNothing(found) ||
        (Safe(ds, S) && later <= S.minded && Guarded(w, S, later) && FitsStep(ds, step, S))
  }

  lemma GuardedIsNoHeavier(lines: seq<Line>, mode: Mode, i: nat, found: FollowUp, w: Weight, exactly: bool, S: Scope,
        later: iset<string>)
    requires Guarded(w, S, later)
    requires forall p :: 0 <= p < |lines| ==> !IsKept(S, lines[p]) && lines[p].orderLine !in later
    ensures NoHeavier(w, lines, NewDelivery(lines, mode, i, found), exactly)
  {
    var d := NewDelivery(lines, mode, i, found);
    forall p | 0 <= p < |lines| ensures NoMore(w(false, lines[p]), w(Started(d), d.lines[p]), exactly) {
      var t := RenewedAt(lines, mode, i, found, p);
      assert !IsKept(S, d.lines[p]);
    }
  }

  lemma CreatedIsNoHeavier(ds: seq<Delivery>, found: FollowUp, order: string, group: Group, w: Weight, exactly: bool,
        S: Scope, later: iset<string>)
    requires Distinct(group.rows) && StepGentle(ds, found, w, exactly, S, later, CreateStep(group))
    ensures NoHeavier(w, NewLines(ds, order, group.rows),
        NewDelivery(NewLines(ds, order, group.rows), group.mode, |ds|, found), exactly)
  {
    var lines := NewLines(ds, order, group.rows);
    NewLinesAre(ds, order, group.rows);
    if Steady(w, exactly) {
      SteadyIsNoHeavier(lines, group.mode, |ds|, found, w, exactly);
    } else if FindsNothing(found) {
      SameIsNoHeavier(lines, group.mode, |ds|, found, w, exactly);
    } else {
      forall p | 0 <= p < |lines| ensures !IsKept(S, lines[p]) && lines[p].orderLine !in later {
        assert IsNewLine(lines[p], order, group.rows);
        var k :| 0 <= k < |group.rows| && group.rows[k].id == lines[p].orderLine;
        assert NotKept(S, group.rows[k].id, lines[p]);
      }
      GuardedIsNoHeavier(lines, group.mode, |ds|, found, w, exactly, S, later);
    }
  }

  lemma CreateIsHarmless(ds: seq<Delivery>, found: FollowUp, order: string, group: Group, w: Weight, exactly: bool,
        S: Scope, later: iset<string>)
    requires Distinct(group.rows) && AllHarmless(w, group.rows, exactly)
    requires StepGentle(ds, found, w, exactly, S, later, CreateStep(group))
    ensures NoMore(Total(ds, w), Total(CreateDelivery(ds, found, order, group), w), exactly)
  {
    CreatedIsNoHeavier(ds, found, order, group, w, exactly, S, later);
    CreateTotal(ds, found, order, group, w, exactly);
    NewLinesAreHarmless(ds, order, group.rows, w, exactly);
  }

  lemma StepIsHarmless(ds: seq<Delivery>, names: Naming, found: FollowUp, order: string, step: Step, w: Weight,
        exactly: bool, S: Scope, later: iset<string>)
    requires Proper(ds) && Named(step) && HarmlessStep(w, step, exactly)
    requires StepGentle(ds, found, w, exactly, S, later, step)
    requires Do(ds, names, found, order, step).Some?
    ensures NoMore(Total(ds, w), Total(Do(ds, names, found, order, step).value, w), exactly)
  {
    match step
    case RowStep(blocks, row) => RowIsHarmless(ds, names, found, blocks, row, w, exactly, S, later);
    case CreateStep(group) => CreateIsHarmless(ds, found, order, group, w, exactly, S, later);
  }

  lemma StepIsProper(ds: seq<Delivery>, names: Naming, found: FollowUp, order: string, step: Step)
    requires Proper(ds) && Named(step) && Do(ds, names, found, order, step).Some?
    ensures Proper(Do(ds, names, found, order, step).value)
  {
    match step
    case RowStep(blocks, row) => RowUpdate(ds, names, found, blocks, row);
    case CreateStep(group) => CreateIsProper(ds, found, order, group);
  }

  lemma CreatedIsSafe(lines: seq<Line>, mode: Mode, i: nat, found: FollowUp, S: Scope)
    requires forall p :: 0 <= p < |lines| ==> lines[p].orderLine !in S.todo
    ensures SafeDelivery(NewDelivery(lines, mode, i, found), S)
  {
    var d := NewDelivery(lines, mode, i, found);
    forall p | 0 <= p < |lines| ensures |d.lines| == |lines| && d.lines[p].orderLine !in S.todo {
      var t := RenewedAt(lines, mode, i, found, p);
    }
  }

  lemma StepIsSafe(ds: seq<Delivery>, names: Naming, found: FollowUp, order: string, step: Step, S: Scope)
    requires Proper(ds) && Named(step) && Safe(ds, S) && FitsStep(ds, step, S)
    requires Do(ds, names, found, order, step).Some?
    ensures Safe(Do(ds, names, found, order, step).value, After(S, step))
  {
    match step
    case RowStep(blocks, row) => RowIsSafe(ds, names, found, blocks, row, S);
    case CreateStep(group) =>
      var lines := NewLines(ds, order, group.rows);
      NewLinesAre(ds, order, group.rows);
      forall p | 0 <= p < |lines|
        ensures lines[p].orderLine !in S.todo
      {
        assert IsNewLine(lines[p], order, group.rows);
      }
      CreatedIsSafe(lines, group.mode, |ds|, found, S);
  }

  predicate StepSpares(step: Step, id: string) {
    match step case RowStep(_, row) => row.id != id case CreateStep(group) => !Among(group.rows, id)
  }

  lemma SparedIsHarmless(step: Step, id: string)
    requires StepSpares(step, id)
    ensures HarmlessStep(OnLine(id, OpenPart()), step, true) && HarmlessStep(OnLine(id, FreePart()), step, true)
    ensures HarmlessStep(OnLine(id, One()), step, true) && HarmlessStep(Growable(id), step, true)
  {
    match step
    case RowStep(_, row) => OthersAreIgnored(row.id, id);
    case CreateStep(group) =>
      forall k | 0 <= k < |group.rows|
        ensures Harmless(OnLine(id, OpenPart()), group.rows[k].id, true)
        ensures Harmless(OnLine(id, FreePart()), group.rows[k].id, true)
        ensures Harmless(OnLine(id, One()), group.rows[k].id, true) && Harmless(Growable(id), group.rows[k].id, true)
      {
        OthersAreIgnored(group.rows[k].id, id);
      }
  }

  lemma WeakerHarmless(w: Weight, step: Step)
    requires HarmlessStep(w, step, true)
    ensures HarmlessStep(w, step, false)
  {
    if step.CreateStep? {
      forall k | 0 <= k < |step.group.rows|
        ensures Harmless(w, step.group.rows[k].id, false)
      {
        assert Harmless(w, step.group.rows[k].id, true);
      }
    }
  }

  /** Other order lines keep their open lines; an allocation at a release may only take from what is free or can
      grow. */
  ghost predicate OnlyLess(before: View, after: View) {
    after.open == before.open && after.lines == before.lines && after.free <= before.free &&
        after.growable <= before.growable
  }

  lemma StepLeavesOthers(ds: seq<Delivery>, names: Naming, found: FollowUp, order: string, step: Step, id: string)
    requires Proper(ds) && Named(step) && StepSpares(step, id) && Do(ds, names, found, order, step).Some?
    ensures OnlyLess(ViewOf(ds, id), ViewOf(Do(ds, names, found, order, step).value, id))
  {
    SparedIsHarmless(step, id);
    OpenIsSteady(id);
    FreeIsSteady(id);
    WeakerHarmless(OnLine(id, FreePart()), step);
    WeakerHarmless(Growable(id), step);
    StepIsHarmless(ds, names, found, order, step, OnLine(id, OpenPart()), true, Alone(id), iset{});
    StepIsHarmless(ds, names, found, order, step, OnLine(id, One()), true, Alone(id), iset{});
    StepIsHarmless(ds, names, found, order, step, OnLine(id, FreePart()), false, Alone(id), iset{});
    StepIsHarmless(ds, names, found, order, step, Growable(id), false, Alone(id), iset{});
  }

  /** No delivery gets anything, or nothing it gets matters. */
  ghost predicate Calm(ds: seq<Delivery>, found: FollowUp, S: Scope) { FindsNothing(found) || Safe(ds, S) }

  lemma FreeIsGuarded(id: string, S: Scope)
    ensures Guarded(OnLine(id, FreePart()), S, iset{id})
  {
  }

  lemma StepLeavesFree(ds: seq<Delivery>, names: Naming, found: FollowUp, order: string, step: Step, id: string,
        S: Scope)
    requires Proper(ds) && Named(step) && StepSpares(step, id) && Do(ds, names, found, order, step).Some?
    requires Calm(ds, found, S) && FitsStep(ds, step, S) && id in S.minded
    ensures FreeOnWms(Do(ds, names, found, order, step).value, id) == FreeOnWms(ds, id)
  {
    SparedIsHarmless(step, id);
    FreeIsGuarded(id, S);
    StepIsHarmless(ds, names, found, order, step, OnLine(id, FreePart()), true, S, iset{id});
  }

  // ---------------------------------------------------------------- runs of steps

  ghost predicate AllNamed(steps: seq<Step>) { forall k :: 0 <= k < |steps| ==> Named(steps[k]) }

  ghost predicate AllSpare(steps: seq<Step>, id: string) { forall k :: 0 <= k < |steps| ==> StepSpares(steps[k], id) }

  ghost predicate AllHarmlessSteps(w: Weight, steps: seq<Step>, exactly: bool) {
    forall k :: 0 <= k < |steps| ==> HarmlessStep(w, steps[k], exactly)
  }

  /** Every order line changes once, before any new delivery carries it. */
  ghost predicate Fits(ds: seq<Delivery>, steps: seq<Step>, S: Scope)
    decreases |steps|
  {
    |steps| == 0 || (FitsStep(ds, steps[0], S) && Fits(ds, steps[1..], After(S, steps[0])))
  }

  ghost predicate RowsAvoid(steps: seq<Step>, later: iset<string>) {
    forall k :: 0 <= k < |steps| && steps[k].RowStep? ==> steps[k].row.id !in later
  }

  ghost predicate RunGentle(ds: seq<Delivery>, found: FollowUp, w: Weight, exactly: bool, S: Scope, later: iset<string>,
        steps: seq<Step>)
  {
    || Steady(w, exactly)
    || FindsNothing(found)
    || (Safe(ds, S) && later <= S.minded && Guarded(w, S, later) && Fits(ds, steps, S) && RowsAvoid(steps, later))
  }

  lemma {:induction false} FitsCarries(ds: seq<Delivery>, next: seq<Delivery>, steps: seq<Step>, S: Scope)
    requires Fits(ds, steps, S) && forall id <- S.todo :: OnWms(next, id) == OnWms(ds, id)
    ensures Fits(next, steps, S)
    decreases |steps|
  {
    if |steps| != 0 { FitsCarries(ds, next, steps[1..], After(S, steps[0])); }
  }

  lemma FitsNext(ds: seq<Delivery>, names: Naming, found: FollowUp, order: string, steps: seq<Step>, S: Scope)
    requires Proper(ds) && |steps| > 0 && Named(steps[0]) && Fits(ds, steps, S)
    requires Do(ds, names, found, order, steps[0]).Some?
    ensures Fits(Do(ds, names, found, order, steps[0]).value, steps[1..], After(S, steps[0]))
  {
    var next := Do(ds, names, found, order, steps[0]).value;
    forall id | id in After(S, steps[0]).todo ensures OnWms(next, id) == OnWms(ds, id) {
      StepLeavesOthers(ds, names, found, order, steps[0], id);
    }
    FitsCarries(ds, next, steps[1..], After(S, steps[0]));
  }

  lemma RunGentleNext(ds: seq<Delivery>, names: Naming, found: FollowUp, order: string, steps: seq<Step>, w: Weight,
        exactly: bool, S: Scope, later: iset<string>)
    requires Proper(ds) && |steps| > 0 && Named(steps[0]) && RunGentle(ds, found, w, exactly, S, later, steps)
    requires Do(ds, names, found, order, steps[0]).Some?
    ensures StepGentle(ds, found, w, exactly, S, later, steps[0])
    ensures RunGentle(Do(ds, names, found, order, steps[0]).value, found, w, exactly, After(S, steps[0]), later,
        steps[1..])
  {
    if !Steady(w, exactly) && !FindsNothing(found) {
      FitsNext(ds, names, found, order, steps, S);
      StepIsSafe(ds, names, found, order, steps[0], S);
    }
  }

  lemma {:induction false} RunIsHarmless(ds: seq<Delivery>, names: Naming, found: FollowUp, order: string,
        steps: seq<Step>, w: Weight, exactly: bool, S: Scope, later: iset<string>)
    requires Proper(ds) && AllNamed(steps) && AllHarmlessSteps(w, steps, exactly)
    requires RunGentle(ds, found, w, exactly, S, later, steps)
    requires Run(ds, names, found, order, steps).Some?
    ensures NoMore(Total(ds, w), Total(Run(ds, names, found, order, steps).value, w), exactly)
    decreases |steps|
  {
    if |steps| != 0 {
      RunGentleNext(ds, names, found, order, steps, w, exactly, S, later);
      StepIsHarmless(ds, names, found, order, steps[0], w, exactly, S, later);
      StepIsProper(ds, names, found, order, steps[0]);
      RunIsHarmless(Do(ds, names, found, order, steps[0]).value, names, found, order, steps[1..], w, exactly,
          After(S, steps[0]), later);
    }
  }

  lemma {:induction false} RunIsProper(ds: seq<Delivery>, names: Naming, found: FollowUp, order: string,
        steps: seq<Step>)
    requires Proper(ds) && AllNamed(steps) && Run(ds, names, found, order, steps).Some?
    ensures Proper(Run(ds, names, found, order, steps).value)
    decreases |steps|
  {
    if |steps| != 0 {
      StepIsProper(ds, names, found, order, steps[0]);
      RunIsProper(Do(ds, names, found, order, steps[0]).value, names, found, order, steps[1..]);
    }
  }

  lemma {:induction false} RunLeavesOthers(ds: seq<Delivery>, names: Naming, found: FollowUp, order: string,
        steps: seq<Step>, id: string)
    requires Proper(ds) && AllNamed(steps) && AllSpare(steps, id) && Run(ds, names, found, order, steps).Some?
    ensures OnlyLess(ViewOf(ds, id), ViewOf(Run(ds, names, found, order, steps).value, id))
    decreases |steps|
  {
    if |steps| != 0 {
      StepLeavesOthers(ds, names, found, order, steps[0], id);
      StepIsProper(ds, names, found, order, steps[0]);
      RunLeavesOthers(Do(ds, names, found, order, steps[0]).value, names, found, order, steps[1..], id);
    }
  }

  lemma {:induction false} RunConcat(ds: seq<Delivery>, names: Naming, found: FollowUp, order: string, a: seq<Step>,
        b: seq<Step>)
    ensures Run(ds, names, found, order, a + b) == match Run(ds, names, found, order, a) case None => None
        case Some(mid) => Run(mid, names, found, order, b)
    decreases |a|
  {
    if |a| == 0 {
      assert a + b == b;
    } else {
      assert (a + b)[0] == a[0] && (a + b)[1..] == a[1..] + b;
      var next := Do(ds, names, found, order, a[0]);
      if next.Some? { RunConcat(next.value, names, found, order, a[1..], b); }
    }
  }

  /** Every row could be followed in the state the update starts from. */
  ghost predicate StepAccepted(ds: seq<Delivery>, step: Step) {
    step.RowStep? ==> Accepts(ViewOf(ds, step.row.id), step.blocks, step.row)
  }

  ghost predicate StepsAccepted(ds: seq<Delivery>, steps: seq<Step>) {
    forall k :: 0 <= k < |steps| ==> StepAccepted(ds, steps[k])
  }

  lemma {:induction false} RowsAreToCome(ds: seq<Delivery>, steps: seq<Step>, S: Scope, k: nat)
    requires Fits(ds, steps, S) && k < |steps| && steps[k].RowStep?
    ensures steps[k].row.id in S.todo && (k > 0 ==> StepSpares(steps[0], steps[k].row.id))
    decreases |steps|
  {
    if k > 0 {
      RowsAreToCome(ds, steps[1..], After(S, steps[0]), k - 1);
      assert steps[1..][k - 1] == steps[k];
    }
  }

  lemma AcceptedNext(ds: seq<Delivery>, names: Naming, found: FollowUp, order: string, steps: seq<Step>, S: Scope)
    requires Proper(ds) && |steps| > 0 && AllNamed(steps) && Fits(ds, steps, S) && S.minded == S.todo
    requires Calm(ds, found, S) && StepsAccepted(ds, steps)
    requires Do(ds, names, found, order, steps[0]).Some?
    ensures StepsAccepted(Do(ds, names, found, order, steps[0]).value, steps[1..])
  {
    var next, rest := Do(ds, names, found, order, steps[0]).value, steps[1..];
    forall k | 0 <= k < |rest| ensures StepAccepted(next, rest[k]) {
      assert rest[k] == steps[k + 1] && StepAccepted(ds, steps[k + 1]);
      if rest[k].RowStep? {
        var id := rest[k].row.id;
        RowsAreToCome(ds, steps, S, k + 1);
        StepLeavesOthers(ds, names, found, order, steps[0], id);
        StepLeavesFree(ds, names, found, order, steps[0], id, S);
      }
    }
  }

  lemma {:induction false} AcceptedRunSucceeds(ds: seq<Delivery>, names: Naming, found: FollowUp, order: string,
        steps: seq<Step>, S: Scope)
    requires Proper(ds) && AllNamed(steps) && Fits(ds, steps, S) && S.minded == S.todo
    requires Calm(ds, found, S) && StepsAccepted(ds, steps)
    ensures Run(ds, names, found, order, steps).Some?
    decreases |steps|
  {
    if |steps| != 0 {
      var step := steps[0];
      assert StepAccepted(ds, step) && Named(step);
      if step.RowStep? { RowUpdate(ds, names, found, step.blocks, step.row); }
      AcceptedNext(ds, names, found, order, steps, S);
      FitsNext(ds, names, found, order, steps, S);
      StepIsProper(ds, names, found, order, step);
      if Safe(ds, S) { StepIsSafe(ds, names, found, order, step, S); }
      AcceptedRunSucceeds(Do(ds, names, found, order, step).value, names, found, order, steps[1..], After(S, step));
    }
  }

  // ---------------------------------------------------------------- the update as a run

  function RowSteps(blocks: bool, rows: seq<OrderLine>): (r: seq<Step>)
    decreases |rows|
  {
    if |rows| == 0 then [] else [RowStep(blocks, rows[0])] + RowSteps(blocks, rows[1..])
  }

  function GroupSteps(group: Group): seq<Step> { RowSteps(group.blocks, group.rows) + [CreateStep(group)] }

  function StepsOf(groups: seq<Group>): (r: seq<Step>)
    decreases |groups|
  {
    if |groups| == 0 then [] else GroupSteps(groups[0]) + StepsOf(groups[1..])
  }

  lemma {:induction false} RowsAreSteps(ds: seq<Delivery>, names: Naming, found: FollowUp, order: string, blocks: bool,
        rows: seq<OrderLine>)
    ensures Run(ds, names, found, order, RowSteps(blocks, rows)) == UpdateRows(ds, names, found, blocks, rows)
    decreases |rows|
  {
    if |rows| != 0 {
      var steps := RowSteps(blocks, rows);
      assert steps[0] == RowStep(blocks, rows[0]) && steps[1..] == RowSteps(blocks, rows[1..]);
      var next := UpdateRow(ds, names, found, blocks, rows[0]);
      if next.Some? { RowsAreSteps(next.value, names, found, order, blocks, rows[1..]); }
    }
  }

  lemma OneStep(ds: seq<Delivery>, names: Naming, found: FollowUp, order: string, step: Step)
    ensures Run(ds, names, found, order, [step]) == Do(ds, names, found, order, step)
  {
    assert [step][1..] == [];
  }

  lemma GroupIsSteps(ds: seq<Delivery>, names: Naming, found: FollowUp, order: string, group: Group)
    ensures Run(ds, names, found, order, GroupSteps(group)) == UpdateGroup(ds, names, found, order, group)
  {
    RowsAreSteps(ds, names, found, order, group.blocks, group.rows);
    RunConcat(ds, names, found, order, RowSteps(group.blocks, group.rows), [CreateStep(group)]);
    var rows := UpdateRows(ds, names, found, group.blocks, group.rows);
    if rows.Some? { OneStep(rows.value, names, found, order, CreateStep(group)); }
  }

  lemma {:induction false} GroupsAreSteps(ds: seq<Delivery>, names: Naming, found: FollowUp, order: string,
        groups: seq<Group>)
    ensures Run(ds, names, found, order, StepsOf(groups)) == UpdateGroups(ds, names, found, order, groups)
    decreases |groups|
  {
    if |groups| != 0 {
      GroupIsSteps(ds, names, found, order, groups[0]);
      RunConcat(ds, names, found, order, GroupSteps(groups[0]), StepsOf(groups[1..]));
      var next := UpdateGroup(ds, names, found, order, groups[0]);
      if next.Some? { GroupsAreSteps(next.value, names, found, order, groups[1..]); }
    }
  }

  /** Where a step comes from. */
  ghost predicate IsStepOf(group: Group, step: Step) {
    match step
    case RowStep(blocks, row) => blocks == group.blocks && exists k :: 0 <= k < |group.rows| && group.rows[k] == row
    case CreateStep(g) => g == group
  }

  ghost predicate IsStepOfSome(groups: seq<Group>, step: Step) {
    exists g :: 0 <= g < |groups| && IsStepOf(groups[g], step)
  }

  lemma {:induction false} RowStepsAre(blocks: bool, rows: seq<OrderLine>)
    ensures |RowSteps(blocks, rows)| == |rows|
    ensures forall k :: 0 <= k < |rows| ==> RowSteps(blocks, rows)[k] == RowStep(blocks, rows[k])
    decreases |rows|
  {
    if |rows| != 0 { RowStepsAre(blocks, rows[1..]); }
  }

  lemma {:induction false} StepsOfAre(groups: seq<Group>)
    ensures forall i :: 0 <= i < |StepsOf(groups)| ==> IsStepOfSome(groups, StepsOf(groups)[i])
    decreases |groups|
  {
    if |groups| != 0 {
      var first, rest := GroupSteps(groups[0]), groups[1..];
      RowStepsAre(groups[0].blocks, groups[0].rows);
      StepsOfAre(rest);
      forall i | 0 <= i < |StepsOf(groups)| ensures IsStepOfSome(groups, StepsOf(groups)[i]) {
        var step := StepsOf(groups)[i];
        if i < |first| {
          assert step == first[i];
          if i < |groups[0].rows| { assert step == RowStep(groups[0].blocks, groups[0].rows[i]); }
          assert IsStepOf(groups[0], step);
        } else {
          assert step == StepsOf(rest)[i - |first|];
          var g :| 0 <= g < |rest| && IsStepOf(rest[g], step);
          assert IsStepOf(groups[g + 1], step);
        }
      }
    }
  }

  lemma {:induction false} StepsConcat(a: seq<Group>, b: seq<Group>)
    ensures StepsOf(a + b) == StepsOf(a) + StepsOf(b)
    decreases |a|
  {
    if |a| == 0 {
      assert a + b == b;
    } else {
      assert (a + b)[0] == a[0] && (a + b)[1..] == a[1..] + b;
      StepsConcat(a[1..], b);
    }
  }

  /** Every order line has a name, and no two share one. */
  ghost predicate DistinctGroups(groups: seq<Group>) {
    && (forall g :: 0 <= g < |groups| ==> Distinct(groups[g].rows))
    && (forall g, h, k :: 0 <= g < h < |groups| && 0 <= k < |groups[g].rows| ==>
        !Among(groups[h].rows, groups[g].rows[k].id))
  }

  lemma StepsAreNamed(groups: seq<Group>)
    requires DistinctGroups(groups)
    ensures AllNamed(StepsOf(groups))
  {
    var steps := StepsOf(groups);
    StepsOfAre(groups);
    forall i | 0 <= i < |steps| ensures Named(steps[i]) {
      assert IsStepOfSome(groups, steps[i]);
      var g :| 0 <= g < |groups| && IsStepOf(groups[g], steps[i]);
      assert Distinct(groups[g].rows);
    }
  }

  ghost predicate ListedIn(groups: seq<Group>, id: string) {
    exists g :: 0 <= g < |groups| && Among(groups[g].rows, id)
  }

  lemma StepsSpare(groups: seq<Group>, id: string)
    requires !ListedIn(groups, id)
    ensures AllSpare(StepsOf(groups), id)
  {
    var steps := StepsOf(groups);
    StepsOfAre(groups);
    forall i | 0 <= i < |steps| ensures StepSpares(steps[i], id) {
      assert IsStepOfSome(groups, steps[i]);
      var g :| 0 <= g < |groups| && IsStepOf(groups[g], steps[i]);
      assert !Among(groups[g].rows, id);
    }
  }

  lemma StepsAreHarmless(groups: seq<Group>, w: Weight, exactly: bool)
    requires forall id: string :: ListedIn(groups, id) ==> Harmless(w, id, exactly)
    ensures AllHarmlessSteps(w, StepsOf(groups), exactly)
  {
    var steps := StepsOf(groups);
    StepsOfAre(groups);
    forall i | 0 <= i < |steps| ensures HarmlessStep(w, steps[i], exactly) {
      assert IsStepOfSome(groups, steps[i]);
      var g :| 0 <= g < |groups| && IsStepOf(groups[g], steps[i]);
      forall k | 0 <= k < |groups[g].rows| ensures Harmless(w, groups[g].rows[k].id, exactly) {
        assert Among(groups[g].rows, groups[g].rows[k].id);
        assert ListedIn(groups, groups[g].rows[k].id);
      }
    }
  }

  ghost predicate RowsAccepted(ds: seq<Delivery>, blocks: bool, rows: seq<OrderLine>) {
    forall k :: 0 <= k < |rows| ==> Accepts(ViewOf(ds, rows[k].id), blocks, rows[k])
  }

  /** Every row could be followed in the state the update starts from. */
  ghost predicate GroupsAccepted(ds: seq<Delivery>, groups: seq<Group>) {
    forall g :: 0 <= g < |groups| ==> RowsAccepted(ds, groups[g].blocks, groups[g].rows)
  }

  lemma AcceptedSteps(ds: seq<Delivery>, groups: seq<Group>)
    requires GroupsAccepted(ds, groups)
    ensures StepsAccepted(ds, StepsOf(groups))
  {
    var steps := StepsOf(groups);
    StepsOfAre(groups);
    forall i | 0 <= i < |steps| ensures StepAccepted(ds, steps[i]) {
      assert IsStepOfSome(groups, steps[i]);
      var g :| 0 <= g < |groups| && IsStepOf(groups[g], steps[i]);
      assert RowsAccepted(ds, groups[g].blocks, groups[g].rows);
    }
  }

  // ---------------------------------------------------------------- the scope of an update

  ghost function IdsOf(rows: seq<OrderLine>): iset<string> { iset id: string | Among(rows, id) }

  lemma AmongFirst(rows: seq<OrderLine>, id: string)
    requires |rows| > 0
    ensures Among(rows, id) <==> id == rows[0].id || Among(rows[1..], id)
  {
    if k :| 0 <= k < |rows[1..]| && rows[1..][k].id == id { assert rows[k + 1].id == id; }
    if k :| 0 < k < |rows| && rows[k].id == id { assert rows[1..][k - 1].id == id; }
  }

  lemma PastBoth(S: Scope, rows: seq<OrderLine>)
    requires |rows| > 0
    ensures Past(Past(S, iset{rows[0].id}), IdsOf(rows[1..])) == Past(S, IdsOf(rows))
  {
    forall id: string
      ensures id in IdsOf(rows) <==> id == rows[0].id || id in IdsOf(rows[1..])
    {
      AmongFirst(rows, id);
    }
    var T := Past(Past(S, iset{rows[0].id}), IdsOf(rows[1..]));
    assert T.todo == Past(S, IdsOf(rows)).todo && T.minded == Past(S, IdsOf(rows)).minded;
  }

  lemma FitsPast(ds: seq<Delivery>, row: OrderLine, S: Scope, ids: iset<string>)
    requires FitsRow(ds, row, S) && row.id !in ids
    ensures FitsRow(ds, row, Past(S, ids))
  {
    NeverKeptPast(S, row.id, ids);
  }

  lemma NeverKeptPast(S: Scope, id: string, ids: iset<string>)
    requires NeverKept(S, id)
    ensures NeverKept(Past(S, ids), id)
  {
    forall l: Line ensures NotKept(Past(S, ids), id, l) { assert NotKept(S, id, l); }
  }

  ghost predicate FitsRows(ds: seq<Delivery>, rows: seq<OrderLine>, S: Scope) {
    forall k :: 0 <= k < |rows| ==> FitsRow(ds, rows[k], S)
  }

  lemma {:induction false} RowStepsFit(ds: seq<Delivery>, blocks: bool, rows: seq<OrderLine>, tail: seq<Step>, S: Scope)
    requires Distinct(rows) && FitsRows(ds, rows, S) && Fits(ds, tail, Past(S, IdsOf(rows)))
    ensures Fits(ds, RowSteps(blocks, rows) + tail, S)
    decreases |rows|
  {
    var steps := RowSteps(blocks, rows) + tail;
    if |rows| == 0 {
      assert steps == tail;
      assert Past(S, IdsOf(rows)).todo == S.todo && Past(S, IdsOf(rows)).minded == S.minded;
    } else {
      var rest, T := rows[1..], Past(S, iset{rows[0].id});
      assert steps[0] == RowStep(blocks, rows[0]) && steps[1..] == RowSteps(blocks, rest) + tail;
      assert FitsRow(ds, rows[0], S);
      forall k | 0 <= k < |rest| ensures FitsRow(ds, rest[k], T) {
        assert rest[k] == rows[k + 1] && FitsRow(ds, rows[k + 1], S);
        FitsPast(ds, rest[k], S, iset{rows[0].id});
      }
      PastBoth(S, rows);
      RowStepsFit(ds, blocks, rest, tail, T);
    }
  }

  ghost predicate GroupsFit(ds: seq<Delivery>, groups: seq<Group>, S: Scope) {
    forall g :: 0 <= g < |groups| ==> FitsRows(ds, groups[g].rows, S)
  }

  lemma CreateFits(ds: seq<Delivery>, group: Group, rest: seq<Group>, S: Scope)
    requires FitsRows(ds, group.rows, S) && Fits(ds, StepsOf(rest), Past(S, IdsOf(group.rows)))
    ensures Fits(ds, [CreateStep(group)] + StepsOf(rest), Past(S, IdsOf(group.rows)))
  {
    var tail, T := [CreateStep(group)] + StepsOf(rest), Past(S, IdsOf(group.rows));
    assert tail[0] == CreateStep(group) && tail[1..] == StepsOf(rest);
    forall k | 0 <= k < |group.rows| ensures group.rows[k].id !in T.todo + T.minded && NeverKept(T, group.rows[k].id) {
      assert FitsRow(ds, group.rows[k], S) && Among(group.rows, group.rows[k].id);
      NeverKeptPast(S, group.rows[k].id, IdsOf(group.rows));
    }
  }

  lemma RestFits(ds: seq<Delivery>, groups: seq<Group>, S: Scope)
    requires |groups| > 0 && DistinctGroups(groups) && GroupsFit(ds, groups, S)
    ensures DistinctGroups(groups[1..]) && GroupsFit(ds, groups[1..], Past(S, IdsOf(groups[0].rows)))
  {
    var group, rest := groups[0], groups[1..];
    var T := Past(S, IdsOf(group.rows));
    forall g | 0 <= g < |rest| ensures FitsRows(ds, rest[g].rows, T) {
      assert rest[g] == groups[g + 1] && FitsRows(ds, groups[g + 1].rows, S);
      forall k | 0 <= k < |rest[g].rows| ensures FitsRow(ds, rest[g].rows[k], T) {
        assert FitsRow(ds, rest[g].rows[k], S) && Among(rest[g].rows, rest[g].rows[k].id);
        assert !Among(group.rows, rest[g].rows[k].id);
        FitsPast(ds, rest[g].rows[k], S, IdsOf(group.rows));
      }
    }
  }

  lemma {:induction false} StepsFit(ds: seq<Delivery>, groups: seq<Group>, S: Scope)
    requires DistinctGroups(groups) && GroupsFit(ds, groups, S)
    ensures Fits(ds, StepsOf(groups), S)
    decreases |groups|
  {
    if |groups| != 0 {
      var group, rest := groups[0], groups[1..];
      var T := Past(S, IdsOf(group.rows));
      assert FitsRows(ds, group.rows, S);
      RestFits(ds, groups, S);
      StepsFit(ds, rest, T);
      var tail := [CreateStep(group)] + StepsOf(rest);
      CreateFits(ds, group, rest, S);
      RowStepsFit(ds, group.blocks, group.rows, tail, S);
      assert RowSteps(group.blocks, group.rows) + tail == GroupSteps(group) + StepsOf(rest);
    }
  }

  // ---------------------------------------------------------------- when a row's turn comes

  /** The part of an order that is followed before row `k` of group `g`. */
  function Earlier(groups: seq<Group>, g: nat, k: nat): seq<Group>
    requires g < |groups| && k < |groups[g].rows|
  {
    groups[..g] + [groups[g].(rows := groups[g].rows[..k], replicates := false)]
  }

  /** The deliveries when the turn of row `k` of group `g` comes. */
  function Turn(ds: seq<Delivery>, names: Naming, found: FollowUp, order: Order, g: nat, k: nat): Option<seq<Delivery>>
    requires g < |order.groups| && k < |order.groups[g].rows|
  {
    UpdateGroups(ds, names, found, order.name, Earlier(order.groups, g, k))
  }

  lemma AmongPrefix(rows: seq<OrderLine>, k: nat, id: string)
    requires k <= |rows|
    ensures Among(rows[..k], id) ==> Among(rows, id)
  {
    if m :| 0 <= m < k && rows[..k][m].id == id { assert rows[m].id == id; }
  }

  lemma EarlierIsDistinct(groups: seq<Group>, g: nat, k: nat)
    requires DistinctGroups(groups) && g < |groups| && k < |groups[g].rows|
    ensures DistinctGroups(Earlier(groups, g, k)) && !ListedIn(Earlier(groups, g, k), groups[g].rows[k].id)
  {
    var earlier, id := Earlier(groups, g, k), groups[g].rows[k].id;
    assert Among(groups[g].rows, id);
    forall h | 0 <= h < |earlier| ensures Distinct(earlier[h].rows) && !Among(earlier[h].rows, id) {
      if h < g {
        assert earlier[h] == groups[h];
        assert forall j :: 0 <= j < |groups[h].rows| ==> !Among(groups[g].rows, groups[h].rows[j].id);
      }
    }
    forall h, i, j | 0 <= h < i < |earlier| && 0 <= j < |earlier[h].rows|
      ensures !Among(earlier[i].rows, earlier[h].rows[j].id)
    {
      assert earlier[h] == groups[h] && !Among(groups[i].rows, groups[h].rows[j].id);
      if i == g { AmongPrefix(groups[g].rows, k, earlier[h].rows[j].id); }
    }
  }

  /** What is followed after row `k` of group `g`. */
  function Rest(groups: seq<Group>, g: nat, k: nat): seq<Step>
    requires g < |groups| && k < |groups[g].rows|
  {
    RowSteps(groups[g].blocks, groups[g].rows[k + 1..]) + [CreateStep(groups[g])] + StepsOf(groups[g + 1..])
  }

  lemma {:induction false} RowStepsConcat(blocks: bool, a: seq<OrderLine>, b: seq<OrderLine>)
    ensures RowSteps(blocks, a + b) == RowSteps(blocks, a) + RowSteps(blocks, b)
    decreases |a|
  {
    if |a| == 0 {
      assert a + b == b;
    } else {
      assert (a + b)[0] == a[0] && (a + b)[1..] == a[1..] + b;
      RowStepsConcat(blocks, a[1..], b);
    }
  }

  lemma GroupStepsSplit(group: Group, k: nat)
    requires k < |group.rows|
    ensures GroupSteps(group) == RowSteps(group.blocks,
        group.rows[..k]) + ([RowStep(group.blocks, group.rows[k])] + RowSteps(group.blocks,
            group.rows[k + 1..]) + [CreateStep(group)])
  {
    var rows := group.rows;
    assert rows == rows[..k] + rows[k..];
    assert rows[k..][0] == rows[k] && rows[k..][1..] == rows[k + 1..];
    RowStepsConcat(group.blocks, rows[..k], rows[k..]);
  }

  lemma StepsSplit(groups: seq<Group>, g: nat, k: nat)
    requires g < |groups| && k < |groups[g].rows|
    ensures StepsOf(groups) == StepsOf(groups[..g]) + RowSteps(groups[g].blocks,
        groups[g].rows[..k]) + ([RowStep(groups[g].blocks, groups[g].rows[k])] + Rest(groups, g, k))
  {
    assert groups == groups[..g] + groups[g..];
    assert groups[g..][0] == groups[g] && groups[g..][1..] == groups[g + 1..];
    StepsConcat(groups[..g], groups[g..]);
    GroupStepsSplit(groups[g], k);
  }

  lemma TurnIsRun(ds: seq<Delivery>, names: Naming, found: FollowUp, order: Order, g: nat, k: nat)
    requires g < |order.groups| && k < |order.groups[g].rows|
    ensures Turn(ds, names, found, order, g, k)
      == Run(ds, names, found, order.name,
          StepsOf(order.groups[..g]) + RowSteps(order.groups[g].blocks, order.groups[g].rows[..k]))
  {
    var group := order.groups[g].(rows := order.groups[g].rows[..k], replicates := false);
    var front := StepsOf(order.groups[..g]) + RowSteps(group.blocks, group.rows);
    GroupsAreSteps(ds, names, found, order.name, Earlier(order.groups, g, k));
    StepsConcat(order.groups[..g], [group]);
    assert [group][1..] == [] && StepsOf([group]) == GroupSteps(group) + [];
    assert StepsOf(Earlier(order.groups, g, k)) == front + [CreateStep(group)];
    RunConcat(ds, names, found, order.name, front, [CreateStep(group)]);
    var mid := Run(ds, names, found, order.name, front);
    if mid.Some? { OneStep(mid.value, names, found, order.name, CreateStep(group)); }
  }

  /** A successful update reaches the turn of every row, follows it there, and goes on. */
  lemma TurnComes(ds: seq<Delivery>, names: Naming, found: FollowUp, order: Order, g: nat,
        k: nat) returns (mid: seq<Delivery>, next: seq<Delivery>)
    requires g < |order.groups| && k < |order.groups[g].rows|
    requires UpdateGroups(ds, names, found, order.name, order.groups).Some?
    ensures Turn(ds, names, found, order, g, k) == Some(mid)
    ensures UpdateRow(mid, names, found, order.groups[g].blocks, order.groups[g].rows[k]) == Some(next)
    ensures Run(next, names, found, order.name, Rest(order.groups, g, k)) ==
        UpdateGroups(ds, names, found, order.name, order.groups)
  {
    var groups := order.groups;
    var front := StepsOf(groups[..g]) + RowSteps(groups[g].blocks, groups[g].rows[..k]);
    var step := RowStep(groups[g].blocks, groups[g].rows[k]);
    GroupsAreSteps(ds, names, found, order.name, groups);
    StepsSplit(groups, g, k);
    TurnIsRun(ds, names, found, order, g, k);
    RunConcat(ds, names, found, order.name, front, [step] + Rest(groups, g, k));
    mid := Turn(ds, names, found, order, g, k).value;
    assert ([step] + Rest(groups, g, k))[1..] == Rest(groups, g, k);
    next := Do(mid, names, found, order.name, step).value;
  }

  lemma TurnIsProper(ds: seq<Delivery>, names: Naming, found: FollowUp, order: Order, g: nat, k: nat)
    requires Proper(ds) && DistinctGroups(order.groups) && g < |order.groups| && k < |order.groups[g].rows|
    requires Turn(ds, names, found, order, g, k).Some?
    ensures Proper(Turn(ds, names, found, order, g, k).value)
    ensures OnlyLess(ViewOf(ds, order.groups[g].rows[k].id),
        ViewOf(Turn(ds, names, found, order, g, k).value, order.groups[g].rows[k].id))
  {
    var earlier := Earlier(order.groups, g, k);
    EarlierIsDistinct(order.groups, g, k);
    GroupsAreSteps(ds, names, found, order.name, earlier);
    StepsAreNamed(earlier);
    StepsSpare(earlier, order.groups[g].rows[k].id);
    RunIsProper(ds, names, found, order.name, StepsOf(earlier));
    RunLeavesOthers(ds, names, found, order.name, StepsOf(earlier), order.groups[g].rows[k].id);
  }

  // ---------------------------------------------------------------- what a row ends at

  /** The handled quantity of an order line after its group is done. */
  function Settled(v: View, group: Group, row: OrderLine): real {
    if group.replicates then Max(Adapted(v, row), Wanted(row)) else Adapted(v, row)
  }

  lemma RestSettles(ds: seq<Delivery>, names: Naming, found: FollowUp, order: string, groups: seq<Group>, g: nat,
        k: nat)
    requires Proper(ds) && DistinctGroups(groups) && g < |groups| && k < |groups[g].rows|
    requires Run(ds, names, found, order, Rest(groups, g, k)).Some?
    ensures var id := groups[g].rows[k].id; var open := OnWms(ds, id);
      OnWms(Run(ds, names, found, order, Rest(groups, g, k)).value, id) ==
          if groups[g].replicates then Max(open, Wanted(groups[g].rows[k])) else open
  {
    var group, id := groups[g], groups[g].rows[k].id;
    var rows, tail := group.rows[k + 1..], StepsOf(groups[g + 1..]);
    var front := RowSteps(group.blocks, rows);
    assert front + [CreateStep(group)] + tail == front + ([CreateStep(group)] + tail);
    RunConcat(ds, names, found, order, front, [CreateStep(group)] + tail);
    RowStepsAre(group.blocks, rows);
    forall j | 0 <= j < |front| ensures Named(front[j]) && StepSpares(front[j], id) {
      assert front[j] == RowStep(group.blocks, rows[j]) && rows[j] == group.rows[k + 1 + j];
    }
    RunIsProper(ds, names, found, order, front);
    RunLeavesOthers(ds, names, found, order, front, id);
    var mid := Run(ds, names, found, order, front).value;
    assert ([CreateStep(group)] + tail)[1..] == tail;
    CreateAdds(mid, found, order, group, k);
    CreateIsProper(mid, found, order, group);
    LaterGroups(groups, g, k);
    RunLeavesOthers(Do(mid, names, found, order, CreateStep(group)).value, names, found, order, tail, id);
  }

  lemma LaterGroups(groups: seq<Group>, g: nat, k: nat)
    requires DistinctGroups(groups) && g < |groups| && k < |groups[g].rows|
    ensures AllNamed(StepsOf(groups[g + 1..])) && AllSpare(StepsOf(groups[g + 1..]), groups[g].rows[k].id)
  {
    var later := groups[g + 1..];
    assert forall h :: 0 <= h < |later| ==> later[h] == groups[g + 1 + h];
    StepsAreNamed(later);
    StepsSpare(later, groups[g].rows[k].id);
  }

  lemma GroupsSettle(ds: seq<Delivery>, names: Naming, found: FollowUp, order: Order, g: nat, k: nat)
    requires Proper(ds) && DistinctGroups(order.groups)
    requires UpdateGroups(ds, names, found, order.name, order.groups).Some?
    requires g < |order.groups| && k < |order.groups[g].rows|
    ensures Turn(ds, names, found, order, g, k).Some?
    ensures var row := order.groups[g].rows[k]; var v := ViewOf(Turn(ds, names, found, order, g, k).value, row.id);
      OnlyLess(ViewOf(ds, row.id), v) && Accepts(v, order.groups[g].blocks, row)
      && OnWms(UpdateGroups(ds, names, found, order.name, order.groups).value, row.id) ==
          Settled(v, order.groups[g], row)
  {
    var mid, next := TurnComes(ds, names, found, order, g, k);
    TurnIsProper(ds, names, found, order, g, k);
    RowUpdate(mid, names, found, order.groups[g].blocks, order.groups[g].rows[k]);
    RestSettles(next, names, found, order.name, order.groups, g, k);
  }

  lemma GroupsAreProper(ds: seq<Delivery>, names: Naming, found: FollowUp, order: string, groups: seq<Group>)
    requires Proper(ds) && DistinctGroups(groups) && UpdateGroups(ds, names, found, order, groups).Some?
    ensures Proper(UpdateGroups(ds, names, found, order, groups).value)
  {
    GroupsAreSteps(ds, names, found, order, groups);
    StepsAreNamed(groups);
    RunIsProper(ds, names, found, order, StepsOf(groups));
  }

  lemma GroupsNeedAcceptance(ds: seq<Delivery>, names: Naming, found: FollowUp, order: Order)
    requires Proper(ds) && DistinctGroups(order.groups)
    requires UpdateGroups(ds, names, found, order.name, order.groups).Some?
    ensures GroupsAccepted(ds, order.groups)
  {
    forall g, k | 0 <= g < |order.groups| && 0 <= k < |order.groups[g].rows|
      ensures Accepts(ViewOf(ds, order.groups[g].rows[k].id), order.groups[g].blocks, order.groups[g].rows[k])
    {
      GroupsSettle(ds, names, found, order, g, k);
    }
  }

  lemma GroupsSucceed(ds: seq<Delivery>, names: Naming, found: FollowUp, order: Order, S: Scope)
    requires Proper(ds) && DistinctGroups(order.groups) && GroupsAccepted(ds, order.groups)
    requires GroupsFit(ds, order.groups, S) && S.minded == S.todo && Calm(ds, found, S)
    ensures UpdateGroups(ds, names, found, order.name, order.groups).Some?
  {
    GroupsAreSteps(ds, names, found, order.name, order.groups);
    StepsAreNamed(order.groups);
    StepsFit(ds, order.groups, S);
    AcceptedSteps(ds, order.groups);
    AcceptedRunSucceeds(ds, names, found, order.name, StepsOf(order.groups), S);
  }

  lemma GroupsAreHarmless(ds: seq<Delivery>, names: Naming, found: FollowUp, order: string, groups: seq<Group>,
        w: Weight, exactly: bool, S: Scope)
    requires Proper(ds) && DistinctGroups(groups) && UpdateGroups(ds, names, found, order, groups).Some?
    requires forall id: string :: ListedIn(groups, id) ==> Harmless(w, id, exactly)
    requires Steady(w, exactly) || FindsNothing(found) ||
        (Safe(ds, S) && Guarded(w, S, iset{}) && GroupsFit(ds, groups, S))
    ensures NoMore(Total(ds, w), Total(UpdateGroups(ds, names, found, order, groups).value, w), exactly)
  {
    GroupsAreSteps(ds, names, found, order, groups);
    StepsAreNamed(groups);
    StepsAreHarmless(groups, w, exactly);
    if GroupsFit(ds, groups, S) { StepsFit(ds, groups, S); }
    RunIsHarmless(ds, names, found, order, StepsOf(groups), w, exactly, S, iset{});
  }
}
