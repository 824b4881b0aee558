/** Totals over the lines of the open deliveries, and what one edit does to them. */
module OrderTotals {
  import opened Basics
  import opened Sums
  import opened Sorting
  import opened OrderUpdate

  // ---------------------------------------------------------------- totals over the open lines

  /** What a line adds to a total; the flag says whether its delivery has started. */
  type Weight = (bool, Line) -> real

  function LineWorth(w: Weight, started: bool): Line -> real { (l: Line) => w(started, l) }

  function Worth(d: Delivery, w: Weight): real { if IsOpen(d) then Sum(d.lines, LineWorth(w, Started(d))) else 0.0 }

  function WorthOf(w: Weight): Delivery -> real { (d: Delivery) => Worth(d, w) }

  function Total(ds: seq<Delivery>, w: Weight): real { Sum(ds, WorthOf(w)) }

  function OnLine(id: string, f: Line -> real): Weight {
    (started: bool, l: Line) => if l.orderLine == id then f(l) else 0.0
  }

  function OpenPart(): Line -> real { (l: Line) => OpenQty(l) }

  function FreePart(): Line -> real { (l: Line) => FreeQty(l) }

  /** The quantity the warehouse still has to handle for an order line. */
  function OnWms(ds: seq<Delivery>, id: string): real { Total(ds, OnLine(id, OpenPart())) }

  /** The part of it that is not allocated yet. */
  function FreeOnWms(ds: seq<Delivery>, id: string): real { Total(ds, OnLine(id, FreePart())) }

  function One(): Line -> real { (l: Line) => 1.0 }

  /** How many open delivery lines the order line has. */
  function LinesOnWms(ds: seq<Delivery>, id: string): real { Total(ds, OnLine(id, One())) }

  function Growable(id: string): Weight {
    (started: bool, l: Line) => if l.orderLine == id && !started then 1.0 else 0.0
  }

  /** By how much lines fall short of what is already done and allocated. */
  function Shortfall(): Weight { (started: bool, l: Line) => Max(l.done + l.allocatedQty - l.qty, 0.0) }

  // ---------------------------------------------------------------- what the warehouse promises

  ghost predicate ProperLine(l: Line) { l.qty >= 0.0 && l.done >= 0.0 && l.picked >= 0.0 && l.allocatedQty >= 0.0 }

  /** No delivery carries an order line twice. */
  ghost predicate ProperLines(lines: seq<Line>) {
    && (forall p :: 0 <= p < |lines| ==> ProperLine(lines[p]))
    && (forall p, q :: 0 <= p < q < |lines| && lines[p].orderLine == lines[q].orderLine ==> lines[p].orderLine == "")
  }

  ghost predicate Proper(ds: seq<Delivery>) { forall i :: 0 <= i < |ds| && IsOpen(ds[i]) ==> ProperLines(ds[i].lines) }

  // ---------------------------------------------------------------- the two edits

  lemma StartedIgnoresQty(lines: seq<Line>, p: nat, q: real)
    requires p < |lines|
    ensures AnyStarted(lines[p := lines[p].(qty := q)]) == AnyStarted(lines)
  {
    var edited := lines[p := lines[p].(qty := q)];
    assert LineStarted(edited[p]) == LineStarted(lines[p]);
    if AnyStarted(lines) {
      var k :| 0 <= k < |lines| && LineStarted(lines[k]);
      assert LineStarted(edited[k]);
    }
    if AnyStarted(edited) {
      var k :| 0 <= k < |edited| && LineStarted(edited[k]);
      assert LineStarted(lines[k]);
    }
  }

  lemma SetQtyTotal(ds: seq<Delivery>, i: nat, p: nat, q: real, w: Weight)
    requires i < |ds| && p < |ds[i].lines| && IsOpen(ds[i])
    ensures var l := ds[i].lines[p]; var s := Started(ds[i]);
      Total(SetQty(ds, i, p, q), w) == Total(ds, w) - w(s, l) + w(s, l.(qty := q))
  {
    var d, l := ds[i], ds[i].lines[p];
    var edited := d.(lines := d.lines[p := l.(qty := q)]);
    StartedIgnoresQty(d.lines, p, q);
    SumUpdate(d.lines, p, l.(qty := q), LineWorth(w, Started(d)));
    SumUpdate(ds, i, edited, WorthOf(w));
  }

  ghost predicate NoMore(before: real, after: real, exactly: bool) { after <= before && (exactly ==> after == before) }

  /** What the delivery that replaces these lines weighs: no more line by line, or (`exactly`) the same. */
  ghost predicate NoHeavier(w: Weight, kept: seq<Line>, d: Delivery, exactly: bool) {
    |d.lines| == |kept| && forall p :: 0 <= p < |kept| ==> NoMore(w(false, kept[p]), w(Started(d), d.lines[p]), exactly)
  }

  lemma {:induction false} LinesNoHeavier(w: Weight, kept: seq<Line>, lines: seq<Line>, started: bool, exactly: bool)
    requires |lines| == |kept|
    requires forall p :: 0 <= p < |kept| ==> NoMore(w(false, kept[p]), w(started, lines[p]), exactly)
    ensures NoMore(Sum(kept, LineWorth(w, false)), Sum(lines, LineWorth(w, started)), exactly)
  {
    if |kept| != 0 {
      var n := |kept| - 1;
      assert NoMore(w(false, kept[n]), w(started, lines[n]), exactly);
      LinesNoHeavier(w, kept[..n], lines[..n], started, exactly);
    }
  }

  lemma WorthNoHeavier(w: Weight, kept: seq<Line>, d: Delivery, exactly: bool)
    requires IsOpen(d) && NoHeavier(w, kept, d, exactly)
    ensures NoMore(Sum(kept, LineWorth(w, false)), Worth(d, w), exactly) && Sum([d], WorthOf(w)) == Worth(d, w)
  {
    LinesNoHeavier(w, kept, d.lines, Started(d), exactly);
    assert [d][..0] == [];
  }

  lemma RebuildTotal(ds: seq<Delivery>, i: nat, kept: seq<Line>, found: FollowUp, w: Weight, exactly: bool)
    requires i < |ds| && IsOpen(ds[i]) && !Started(ds[i])
    requires NoHeavier(w, kept, NewDelivery(kept, ds[i].mode, |ds|, found), exactly)
    ensures NoMore(Total(ds, w) - Sum(ds[i].lines, LineWorth(w, false)) + Sum(kept, LineWorth(w, false)),
        Total(Rebuild(ds, i, kept, found), w), exactly)
  {
    var d, renewed := ds[i].(status := Withdrawn(ds[i].status)), NewDelivery(kept, ds[i].mode, |ds|, found);
    SumUpdate(ds, i, d, WorthOf(w));
    SumConcat(ds[i := d], [renewed], WorthOf(w));
    WorthNoHeavier(w, kept, renewed, exactly);
  }

  lemma WithoutTotal(lines: seq<Line>, p: nat, f: Line -> real)
    requires p < |lines|
    ensures Sum(Without(lines, p), f) == Sum(lines, f) - f(lines[p])
  {
    var front := lines[..p + 1];
    assert front[..p] == lines[..p];
    Split(lines, p + 1);
    SumConcat(front, lines[p + 1..], f);
    SumConcat(lines[..p], lines[p + 1..], f);
  }

  lemma WithoutIsProper(lines: seq<Line>, p: nat)
    requires p < |lines| && ProperLines(lines)
    ensures ProperLines(Without(lines, p))
    ensures !AnyStarted(lines) ==> !AnyStarted(Without(lines, p))
  {
    var kept := Without(lines, p);
    assert forall k :: 0 <= k < |kept| ==> kept[k] == lines[if k < p then k else k + 1];
  }

  /** A line of a new delivery is the line it was made from, with what was allocated to it. */
  lemma RenewedAt(kept: seq<Line>, mode: Mode, i: nat, found: FollowUp, p: nat) returns (t: real)
    requires p < |kept|
    ensures |NewDelivery(kept, mode, i, found).lines| == |kept|
    ensures NewDelivery(kept, mode, i, found).lines[p] == Held(kept[p], t)
    ensures t >= 0.0 && (t == 0.0 || kept[p].allocatedQty + t <= kept[p].qty)
  {
    t := if mode.Allocates? then Min(Max(found(i, p), 0.0), Max(kept[p].qty - kept[p].allocatedQty, 0.0)) else 0.0;
  }

  lemma RenewedIsProper(kept: seq<Line>, mode: Mode, i: nat, found: FollowUp)
    requires ProperLines(kept)
    ensures ProperLines(NewDelivery(kept, mode, i, found).lines)
    ensures AnyStarted(NewDelivery(kept, mode, i, found).lines) == AnyStarted(kept)
  {
    var lines := NewDelivery(kept, mode, i, found).lines;
    forall p | 0 <= p < |kept|
      ensures LineStarted(lines[p]) == LineStarted(kept[p]) && ProperLine(lines[p])
      ensures lines[p].orderLine == kept[p].orderLine
    {
      var t := RenewedAt(kept, mode, i, found, p);
      assert ProperLine(kept[p]);
    }
    if p :| 0 <= p < |kept| && LineStarted(kept[p]) { assert LineStarted(lines[p]); }
    if p :| 0 <= p < |lines| && LineStarted(lines[p]) { assert LineStarted(kept[p]); }
  }

  lemma RebuildIsProper(ds: seq<Delivery>, i: nat, kept: seq<Line>, found: FollowUp)
    requires i < |ds| && Proper(ds) && ProperLines(kept)
    ensures Proper(Rebuild(ds, i, kept, found))
  {
    RenewedIsProper(kept, ds[i].mode, |ds|, found);
  }

  lemma SetQtyIsProper(ds: seq<Delivery>, i: nat, p: nat, q: real)
    requires i < |ds| && p < |ds[i].lines| && Proper(ds) && q >= 0.0
    ensures Proper(SetQty(ds, i, p, q))
  {
  }

  // ---------------------------------------------------------------- the query

  function At(f: Line -> real): Ref -> real { (r: Ref) => f(r.line) }

  lemma {:induction false} LineRefsTotal(lines: seq<Line>, parent: nat, id: string, f: Line -> real, started: bool)
    ensures Sum(LineRefs(lines, parent, id), At(f)) == Sum(lines, LineWorth(OnLine(id, f), started))
  {
    if |lines| != 0 {
      var n := |lines| - 1;
      LineRefsTotal(lines[..n], parent, id, f, started);
      SumConcat(LineRefs(lines[..n], parent, id), if lines[n].orderLine == id then [Ref(parent, n, lines[n])] else [],
          At(f));
    }
  }

  /** Adding up over the query is adding up over the deliveries. */
  lemma {:induction false} RefsTotal(ds: seq<Delivery>, id: string, f: Line -> real)
    ensures Sum(Refs(ds, id), At(f)) == Total(ds, OnLine(id, f))
  {
    if |ds| != 0 {
      var n := |ds| - 1;
      var last := if IsOpen(ds[n]) then LineRefs(ds[n].lines, n, id) else [];
      RefsTotal(ds[..n], id, f);
      LineRefsTotal(ds[n].lines, n, id, f, Started(ds[n]));
      SumConcat(Refs(ds[..n], id), last, At(f));
    }
  }

  lemma {:induction false} SumOfOnes(refs: seq<Ref>)
    ensures Sum(refs, At(One())) == |refs| as real
  {
    if |refs| != 0 { SumOfOnes(refs[..|refs| - 1]); }
  }

  lemma RefsMeasures(ds: seq<Delivery>, id: string)
    ensures Sum(Refs(ds, id), OpenOf()) == OnWms(ds, id)
    ensures Sum(Refs(ds, id), FreeOf()) == FreeOnWms(ds, id)
    ensures |Refs(ds, id)| as real == LinesOnWms(ds, id)
  {
    RefsTotal(ds, id, OpenPart());
    RefsTotal(ds, id, FreePart());
    RefsTotal(ds, id, One());
    SumOfOnes(Refs(ds, id));
    SumAgree(Refs(ds, id), Refs(ds, id), OpenOf(), At(OpenPart()));
    SumAgree(Refs(ds, id), Refs(ds, id), FreeOf(), At(FreePart()));
  }

  ghost predicate Apart(refs: seq<Ref>) { forall j, k :: 0 <= j < k < |refs| ==> refs[j].parent != refs[k].parent }

  lemma {:induction false} LineRefsAtMostOne(lines: seq<Line>, parent: nat, id: string)
    requires ProperLines(lines) && id != ""
    ensures |LineRefs(lines, parent, id)| <= 1
    ensures (forall p :: 0 <= p < |lines| ==> lines[p].orderLine != id) ==> LineRefs(lines, parent, id) == []
  {
    if |lines| != 0 {
      var n := |lines| - 1;
      LineRefsAtMostOne(lines[..n], parent, id);
    }
  }

  lemma {:induction false} RefsApart(ds: seq<Delivery>, id: string)
    requires Proper(ds) && id != ""
    ensures Apart(Refs(ds, id))
  {
    if |ds| != 0 {
      var n := |ds| - 1;
      RefsApart(ds[..n], id);
      RefsPoint(ds[..n], id);
      if IsOpen(ds[n]) {
        LineRefsAtMostOne(ds[n].lines, n, id);
        LineRefsPoint(ds[n].lines, n, id);
      }
      var before := Refs(ds[..n], id);
      forall j, k | 0 <= j < k < |Refs(ds, id)| ensures Refs(ds, id)[j].parent != Refs(ds, id)[k].parent {
        if j < |before| { assert Current(ds[..n], before[j], id); }
        if k >= |before| { assert Refs(ds, id)[k] in LineRefs(ds[n].lines, n, id); }
      }
    }
  }

  function OtherParent(): (Ref, Ref) -> bool { (a: Ref, b: Ref) => a.parent != b.parent }

  lemma SortApart(refs: seq<Ref>, le: (Ref, Ref) -> bool)
    requires Apart(refs)
    ensures Apart(SortBy(refs, le))
  {
    SortPairwise(refs, le, OtherParent());
    assert forall j, k :: 0 <= j < k < |SortBy(refs, le)| ==> OtherParent()(SortBy(refs, le)[j], SortBy(refs, le)[k]);
  }
}
