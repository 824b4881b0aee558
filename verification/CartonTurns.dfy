/** One turn of the packing loop: which carton it fills, how far, and which packaging it opens. */
module CartonTurns {
  import opened Basics
  import opened Sums
  import opened Sorting
  import opened Cartonization
  import opened CartonPlans

  // ---------------------------------------------------------------- how much fits

  /** That many units fit into the room; a limit says nothing of units without that measure. */
  predicate Fits(u: Unit, roomWeight: Option<real>, roomVolume: Option<real>, n: nat) {
    && (roomWeight.Some? && u.weight > 0.0 ==> n as real * u.weight <= roomWeight.value)
    && (roomVolume.Some? && u.volume > 0.0 ==> n as real * u.volume <= roomVolume.value)
  }

  /** The fit is the greatest number of units that fit, up to a thousand million. */
  lemma FitIsGreatest(u: Unit, roomWeight: Option<real>, roomVolume: Option<real>, n: nat)
    requires n <= 1_000_000_000
    requires roomWeight.Some? ==> roomWeight.value >= 0.0
    requires roomVolume.Some? ==> roomVolume.value >= 0.0
    ensures n <= Fit(u, roomWeight, roomVolume) <==> Fits(u, roomWeight, roomVolume, n)
  {
    if roomWeight.Some? && u.weight > 0.0 { QuotientFloor(roomWeight.value, u.weight, n as real); }
    if roomVolume.Some? && u.volume > 0.0 { QuotientFloor(roomVolume.value, u.volume, n as real); }
  }

  predicate HoldsUnits(t: Packaging, u: Unit, n: nat) {
    && (t.maximumWeight != 0.0 && u.weight > 0.0 ==> n as real * u.weight <= t.maximumWeight)
    && (t.maximumVolume != 0.0 && u.volume > 0.0 ==> n as real * u.volume <= t.maximumVolume)
  }

  /** The packaging holds the whole quantity, rounded up to units. */
  ghost predicate HoldsAll(t: Packaging, u: Unit, quantity: real) {
    exists n: nat :: n <= 1_000_000_000 && n as real >= quantity && HoldsUnits(t, u, n)
  }

  ghost predicate IsSound(t: Packaging) { t.maximumWeight >= 0.0 && t.maximumVolume >= 0.0 }

  lemma FitEmptyIs(t: Packaging, u: Unit, n: nat)
    requires IsSound(t) && n <= 1_000_000_000
    ensures n <= FitEmpty(t, u) <==> HoldsUnits(t, u, n)
  {
    FitIsGreatest(u, Limit(t.maximumWeight), Limit(t.maximumVolume), n);
  }

  lemma FitIsBounded(t: Packaging, u: Unit, n: nat)
    requires IsSound(t) && n as real <= FitEmpty(t, u) as real
    ensures HoldsUnits(t, u, n)
  {
    var w, v := Limit(t.maximumWeight), Limit(t.maximumVolume);
    if w.Some? && u.weight > 0.0 { QuotientFloor(w.value, u.weight, n as real); }
    if v.Some? && u.volume > 0.0 { QuotientFloor(v.value, u.volume, n as real); }
  }

  lemma RoundedUp(quantity: real) returns (n: nat)
    requires quantity > 0.0
    ensures quantity <= n as real < quantity + 1.0
  {
    n := if quantity == quantity.Floor as real then quantity.Floor else quantity.Floor + 1;
  }

  lemma HoldsAllIs(t: Packaging, u: Unit, quantity: real)
    requires IsSound(t) && 0.0 < quantity <= 1_000_000_000.0
    ensures FitEmpty(t, u) as real >= quantity <==> HoldsAll(t, u, quantity)
  {
    if FitEmpty(t, u) as real >= quantity {
      var n := RoundedUp(quantity);
      assert n <= FitEmpty(t, u);
      FitIsBounded(t, u, n);
    }
    if HoldsAll(t, u, quantity) {
      var n: nat :| n <= 1_000_000_000 && n as real >= quantity && HoldsUnits(t, u, n);
      FitEmptyIs(t, u, n);
    }
  }

  // ---------------------------------------------------------------- which packaging

  /** The first packaging in the list that holds the whole quantity, or, where none does, the last that holds a unit. */
  ghost predicate IsChosen(types: seq<Packaging>, u: Unit, quantity: real, t: Packaging) {
    exists i :: 0 <= i < |types| && types[i] == t && IsChosenAt(types, u, quantity, i)
  }

  ghost predicate IsChosenAt(types: seq<Packaging>, u: Unit, quantity: real, i: nat)
    requires i < |types|
  {
    if exists x <- types :: HoldsAll(x, u, quantity)
    then HoldsAll(types[i], u, quantity) && forall j :: 0 <= j < i ==> !HoldsAll(types[j], u, quantity)
    else HoldsUnits(types[i], u, 1) && forall j :: i < j < |types| ==> !HoldsUnits(types[j], u, 1)
  }

  lemma {:induction false} FilterHead<T>(s: seq<T>, keep: T -> bool) returns (i: nat)
    requires |Filter(s, keep)| > 0
    ensures i < |s| && keep(s[i]) && s[i] == Filter(s, keep)[0] && forall j :: 0 <= j < i ==> !keep(s[j])
  {
    if keep(s[0]) {
      i := 0;
    } else {
      var k := FilterHead(s[1..], keep);
      i := k + 1;
    }
  }

  lemma {:induction false} FilterEnd<T>(s: seq<T>, keep: T -> bool) returns (i: nat)
    requires |Filter(s, keep)| > 0
    ensures i < |s| && keep(s[i]) && s[i] == Filter(s, keep)[|Filter(s, keep)| - 1]
    ensures forall j :: i < j < |s| ==> !keep(s[j])
  {
    var rest := Filter(s[1..], keep);
    if |rest| > 0 {
      var k := FilterEnd(s[1..], keep);
      i := k + 1;
      forall j | i < j < |s| ensures !keep(s[j]) { assert s[j] == s[1..][j - 1]; }
    } else {
      i := 0;
      forall j | 0 < j < |s| ensures !keep(s[j]) {
        FilterMembersOf(s[1..], keep, j - 1);
        assert s[j] == s[1..][j - 1];
      }
    }
  }

  lemma {:induction false} FilterMembersOf<T>(s: seq<T>, keep: T -> bool, k: nat)
    requires k < |s| && Filter(s, keep) == []
    ensures !keep(s[k])
  {
    if k > 0 { FilterMembersOf(s[1..], keep, k - 1); }
  }

  function HoldsOneUnit(u: Unit): Packaging -> bool { (t: Packaging) => FitEmpty(t, u) >= 1 }

  function HoldsRest(u: Unit, quantity: real): Packaging -> bool {
    (t: Packaging) => FitEmpty(t, u) as real >= quantity
  }

  lemma WholeIsUsable(types: seq<Packaging>, u: Unit, quantity: real)
    requires quantity > 0.0
    ensures Filter(Filter(types, HoldsOneUnit(u)), HoldsRest(u, quantity)) == Filter(types, HoldsRest(u, quantity))
  {
    FilterBoth(types, HoldsOneUnit(u), HoldsRest(u, quantity), HoldsRest(u, quantity));
  }

  lemma SameFilters(types: seq<Packaging>, u: Unit, quantity: real)
    ensures Filter(types, (t: Packaging) => FitEmpty(t, u) >= 1) == Filter(types, HoldsOneUnit(u))
    ensures forall s: seq<Packaging> ::
        Filter(s, (t: Packaging) => FitEmpty(t, u) as real >= quantity) == Filter(s, HoldsRest(u, quantity))
  {
    FilterAgrees(types, (t: Packaging) => FitEmpty(t, u) >= 1, HoldsOneUnit(u));
    forall s: seq<Packaging>
      ensures Filter(s, (t: Packaging) => FitEmpty(t, u) as real >= quantity) == Filter(s, HoldsRest(u, quantity))
    {
      FilterAgrees(s, (t: Packaging) => FitEmpty(t, u) as real >= quantity, HoldsRest(u, quantity));
    }
  }

  lemma {:induction false} FilterAgrees<T>(s: seq<T>, f: T -> bool, g: T -> bool)
    requires forall x <- s :: f(x) == g(x)
    ensures Filter(s, f) == Filter(s, g)
  {
    if |s| != 0 {
      assert s[0] in s && forall x <- s[1..] :: x in s;
      FilterAgrees(s[1..], f, g);
    }
  }

  lemma OpenedOf(types: seq<Packaging>, item: string, quantity: real, u: Unit)
    requires quantity > 0.0
    ensures var usable, whole := Filter(types, HoldsOneUnit(u)), Filter(types, HoldsRest(u, quantity));
      var r := OpenCarton(types, item, quantity, u);
      && (r.Success? <==> |usable| > 0)
      && (r.Success? ==> r.value == EmptyCarton(if |whole| > 0 then whole[0] else usable[|usable| - 1]))
  {
    SameFilters(types, u, quantity);
    WholeIsUsable(types, u, quantity);
  }

  /** A new carton is the first packaging that holds all that is left of the line, else the last that holds a unit. */
  lemma OpenCartonChooses(types: seq<Packaging>, item: string, quantity: real, u: Unit)
    requires SoundTypes(types) && 0.0 < quantity <= 1_000_000_000.0 && OpenCarton(types, item, quantity, u).Success?
    ensures IsChosen(types, u, quantity, OpenCarton(types, item, quantity, u).value.packaging)
  {
    var usable, whole := Filter(types, HoldsOneUnit(u)), Filter(types, HoldsRest(u, quantity));
    OpenedOf(types, item, quantity, u);
    forall x | x in types ensures HoldsRest(u, quantity)(x) <==> HoldsAll(x, u, quantity) {
      HoldsAllIs(x, u, quantity);
    }
    forall x | x in types ensures HoldsOneUnit(u)(x) <==> HoldsUnits(x, u, 1) { FitEmptyIs(x, u, 1); }
    FilterMembers(types, HoldsRest(u, quantity));
    if |whole| > 0 {
      var i := FilterHead(types, HoldsRest(u, quantity));
      assert IsChosenAt(types, u, quantity, i);
    } else {
      var i := FilterEnd(types, HoldsOneUnit(u));
      assert IsChosenAt(types, u, quantity, i);
    }
  }

  // ---------------------------------------------------------------- one turn

  /** Nothing but carton `j` has changed, and that is the first with room for a unit, or a new one. */
  ghost predicate FillsFirst(types: seq<Packaging>, cartons: seq<Carton>, after: seq<Carton>, u: Unit, quantity: real,
        j: nat)
  {
    && j < |after| && (forall i :: 0 <= i < |cartons| && i != j ==> i < |after| && after[i] == cartons[i])
    && (forall i :: 0 <= i < j && i < |cartons| ==> Refuses(cartons[i], u))
    && (j < |cartons| ==> |after| == |cartons| && HasRoom(u, cartons[j].roomWeight, cartons[j].roomVolume))
    && (j >= |cartons| ==> j == |cartons| && |after| == j + 1 && IsChosen(types, u, quantity, after[j].packaging))
  }

  lemma FullAfter(c: Carton, u: Unit, item: string, fit: nat)
    requires fit == FitInto(c, u) && fit < 1_000_000_000
    requires c.roomWeight.Some? ==> c.roomWeight.value >= 0.0
    requires c.roomVolume.Some? ==> c.roomVolume.value >= 0.0
    ensures Refuses(Put(c, Portion(item, fit as real, u)), u)
  {
    var n := fit + 1;
    FitIsGreatest(u, c.roomWeight, c.roomVolume, n);
    assert n as real * u.weight == fit as real * u.weight + u.weight;
    assert n as real * u.volume == fit as real * u.volume + u.volume;
  }

  /** A turn fills the first carton with room for a unit, or one it opens, until nothing is left of the line or no
      further unit fits. */
  lemma TurnIsGreedy(types: seq<Packaging>, cartons: seq<Carton>, item: string, quantity: real,
        u: Unit) returns (j: nat)
    requires SoundTypes(types) && AllPacked(cartons, types) && 0.0 < quantity <= 1_000_000_000.0
    requires PlaceSome(types, cartons, item, quantity, u).Success?
    ensures var (after, placed) := PlaceSome(types, cartons, item, quantity, u).value;
      FillsFirst(types, cartons, after, u, quantity, j) && (placed == quantity || Refuses(after[j], u))
  {
    j := FirstWithRoom(cartons, u);
    FirstWithRoomRefusals(cartons, u);
    var c := if j < |cartons| then cartons[j] else OpenCarton(types, item, quantity, u).value;
    forall i | 0 <= i < j ensures Refuses(cartons[i], u) { assert cartons[..j][i] == cartons[i]; }
    if j < |cartons| {
      assert Packed(cartons[j], types);
      FitMeansRoom(u, c.roomWeight, c.roomVolume);
    } else {
      OpenCartonChooses(types, item, quantity, u);
    }
    if quantity > FitInto(c, u) as real { FullAfter(c, u, item, FitInto(c, u)); }
  }

  // ---------------------------------------------------------------- the whole plan

  ghost predicate WellChosen(types: seq<Packaging>, c: Carton, product: string -> Unit) {
    |c.rows| > 0 && exists quantity: real ::
        quantity > 0.0 && IsChosen(types, product(c.rows[0].item), quantity, c.packaging)
  }

  ghost predicate DistinctItems(rows: seq<Row>) {
    forall i, j :: 0 <= i < j < |rows| ==> rows[i].item != rows[j].item
  }

  ghost predicate AllChosen(types: seq<Packaging>, cartons: seq<Carton>, product: string -> Unit) {
    forall i :: 0 <= i < |cartons| ==> WellChosen(types, cartons[i], product) && DistinctItems(cartons[i].rows)
  }

  lemma AddRowStays(rows: seq<Row>, p: Row)
    requires DistinctItems(rows)
    ensures DistinctItems(AddRow(rows, p)) && |AddRow(rows, p)| > 0
    ensures |rows| > 0 ==> AddRow(rows, p)[0].item == rows[0].item
    ensures |rows| == 0 ==> AddRow(rows, p)[0].item == p.item
  {
    var i := RowOf(rows, p.item);
  }

  lemma PlaceSomeChooses(types: seq<Packaging>, cartons: seq<Carton>, item: string, quantity: real,
        product: string -> Unit)
    requires SoundTypes(types) && 0.0 < quantity <= 1_000_000_000.0 && AllChosen(types, cartons, product)
    ensures var r := PlaceSome(types, cartons, item, quantity, product(item));
        r.Success? ==> AllChosen(types, r.value.0, product)
  {
    var u := product(item);
    var r, j := PlaceSome(types, cartons, item, quantity, u), FirstWithRoom(cartons, u);
    if j < |cartons| {
      var k := Min(quantity, FitInto(cartons[j], u) as real);
      AddRowStays(cartons[j].rows, Portion(item, k, u));
      assert WellChosen(types, cartons[j], product);
      assert WellChosen(types, r.value.0[j], product);
    } else if r.Success? {
      var c := OpenCarton(types, item, quantity, u).value;
      var k := Min(quantity, FitInto(c, u) as real);
      OpenCartonChooses(types, item, quantity, u);
      AddRowStays([], Portion(item, k, u));
      assert r.value.0[j] == Put(c, Portion(item, k, u)) && WellChosen(types, r.value.0[j], product);
    }
  }

  lemma PlaceLineChooses(types: seq<Packaging>, cartons: seq<Carton>, item: string, quantity: real,
        product: string -> Unit)
    requires SoundTypes(types) && quantity <= 1_000_000_000.0 && AllChosen(types, cartons, product)
    ensures var r := PlaceLine(types, cartons, item, quantity, product(item));
        r.Success? ==> AllChosen(types, r.value, product)
  {
    var u := product(item);
    var inv := (cs: seq<Carton>, q: real) => q <= 1_000_000_000.0 && AllChosen(types, cs, product);
    forall cs: seq<Carton>, q: real | inv(cs, q) && q > 0.0 ensures TurnKeeps(types, cs, item, q, u, inv) {
      PlaceSomeChooses(types, cs, item, q, product);
    }
    TurnsKeep(types, cartons, item, quantity, u, inv);
  }

  lemma {:induction false} PlaceLinesChoose(types: seq<Packaging>, cartons: seq<Carton>, lines: seq<Line>,
        product: string -> Unit)
    requires SoundTypes(types) && AllChosen(types, cartons, product)
    requires forall l <- lines :: l.quantity <= 1_000_000_000.0
    ensures var r := PlaceLines(types, cartons, lines, product); r.Success? ==> AllChosen(types, r.value, product)
    decreases |lines|
  {
    if |lines| > 0 {
      assert lines[0] in lines && forall l <- lines[1..] :: l in lines;
      PlaceLineChooses(types, cartons, lines[0].item, lines[0].quantity, product);
      var r := PlaceLine(types, cartons, lines[0].item, lines[0].quantity, product(lines[0].item));
      if r.Success? { PlaceLinesChoose(types, r.value, lines[1..], product); }
    }
  }

  /** Every carton of a plan is of the packaging that suits what was left when it was opened for its first item, and has
      one row for each item in it. */
  lemma PlanChoosesPackaging(types: seq<Packaging>, lines: seq<Line>, product: string -> Unit)
    requires SoundTypes(types) && forall l <- lines :: l.quantity <= 1_000_000_000.0
    ensures var r := Plan(types, lines, product); r.Success? ==> AllChosen(types, r.value, product)
  {
    var sorted := SortBy(lines, BulkyFirst(product));
    SortPermutes(lines, BulkyFirst(product));
    forall l | l in sorted ensures l.quantity <= 1_000_000_000.0 {
      assert l in multiset(sorted) && l in multiset(lines);
    }
    PlaceLinesChoose(types, [], sorted, product);
  }

  // ---------------------------------------------------------------- the bulkiest first

  /** No less volume for a unit, and at the same volume no less weight. */
  predicate AsBulky(a: Unit, b: Unit) { a.volume > b.volume || (a.volume == b.volume && a.weight >= b.weight) }

  function UnitOf(c: Carton, product: string -> Unit, m: nat): Unit
    requires m < |c.rows|
  {
    product(c.rows[m].item)
  }

  /** Nothing in a carton is bulkier than what it was opened for, nor less bulky than `u`. */
  ghost predicate FilledDown(c: Carton, product: string -> Unit, u: Unit) {
    |c.rows| > 0 && forall m :: 0 <= m < |c.rows| ==>
      AsBulky(UnitOf(c, product, 0), UnitOf(c, product, m)) && AsBulky(UnitOf(c, product, m), u)
  }

  ghost predicate AllFilledDown(cartons: seq<Carton>, product: string -> Unit, u: Unit) {
    && (forall i :: 0 <= i < |cartons| ==> FilledDown(cartons[i], product, u))
    && (forall i, j :: 0 <= i < j < |cartons| ==>
        |cartons[i].rows| > 0 && |cartons[j].rows| > 0 &&
        AsBulky(UnitOf(cartons[i], product, 0), UnitOf(cartons[j], product, 0)))
  }

  lemma PutFillsDown(c: Carton, product: string -> Unit, item: string, k: real)
    requires c.rows == [] || FilledDown(c, product, product(item))
    ensures FilledDown(Put(c, Portion(item, k, product(item))), product, product(item))
    ensures c.rows != [] ==> UnitOf(Put(c, Portion(item, k, product(item))), product, 0) == UnitOf(c, product, 0)
    ensures c.rows == [] ==> UnitOf(Put(c, Portion(item, k, product(item))), product, 0) == product(item)
  {
    var u, p := product(item), Portion(item, k, product(item));
    var after := Put(c, p);
    assert AsBulky(u, u);
    if c.rows == [] {
      assert RowOf(c.rows, item) == 0 && after.rows == [p];
    } else {
      AddRowKeepsItems(c.rows, p);
      assert AsBulky(UnitOf(c, product, 0), u);
      forall m | 0 <= m < |after.rows|
        ensures AsBulky(UnitOf(c, product, 0), UnitOf(after, product, m)) && AsBulky(UnitOf(after, product, m), u)
      {
        if m < |c.rows| { assert UnitOf(after, product, m) == UnitOf(c, product, m); }
      }
    }
  }

  lemma AddRowKeepsItems(rows: seq<Row>, p: Row)
    ensures |rows| <= |AddRow(rows, p)| <= |rows| + 1
    ensures forall m :: 0 <= m < |rows| ==> AddRow(rows, p)[m].item == rows[m].item
    ensures forall m :: |rows| <= m < |AddRow(rows, p)| ==> AddRow(rows, p)[m].item == p.item
  {
    var i := RowOf(rows, p.item);
  }

  lemma PlaceSomeFillsDown(types: seq<Packaging>, cartons: seq<Carton>, item: string, quantity: real,
        product: string -> Unit)
    requires quantity > 0.0 && AllFilledDown(cartons, product, product(item))
    ensures var r := PlaceSome(types, cartons, item, quantity, product(item));
        r.Success? ==> AllFilledDown(r.value.0, product, product(item))
  {
    var u := product(item);
    var r, j := PlaceSome(types, cartons, item, quantity, u), FirstWithRoom(cartons, u);
    if r.Success? {
      var c := if j < |cartons| then cartons[j] else OpenCarton(types, item, quantity, u).value;
      var k := Min(quantity, FitInto(c, u) as real);
      if j < |cartons| { assert FilledDown(cartons[j], product, u); }
      PutFillsDown(c, product, item, k);
      assert r.value.0[j] == Put(c, Portion(item, k, u));
    }
  }

  lemma PlaceLineFillsDown(types: seq<Packaging>, cartons: seq<Carton>, item: string, quantity: real,
        product: string -> Unit)
    requires AllFilledDown(cartons, product, product(item))
    ensures var r := PlaceLine(types, cartons, item, quantity, product(item));
        r.Success? ==> AllFilledDown(r.value, product, product(item))
  {
    var u := product(item);
    var inv := (cs: seq<Carton>, q: real) => AllFilledDown(cs, product, u);
    forall cs: seq<Carton>, q: real | inv(cs, q) && q > 0.0 ensures TurnKeeps(types, cs, item, q, u, inv) {
      PlaceSomeFillsDown(types, cs, item, q, product);
    }
    TurnsKeep(types, cartons, item, quantity, u, inv);
  }

  lemma LowerIsEnough(cartons: seq<Carton>, product: string -> Unit, u: Unit, lower: Unit)
    requires AllFilledDown(cartons, product, u) && AsBulky(u, lower)
    ensures AllFilledDown(cartons, product, lower)
  {
    forall i | 0 <= i < |cartons| ensures FilledDown(cartons[i], product, lower) {
      assert FilledDown(cartons[i], product, u);
    }
  }

  /** No line is bulkier than one before it. */
  ghost predicate GoDown(lines: seq<Line>, product: string -> Unit) {
    forall i, j :: 0 <= i < j < |lines| ==> AsBulky(product(lines[i].item), product(lines[j].item))
  }

  lemma {:induction false} PlaceLinesFillDown(types: seq<Packaging>, cartons: seq<Carton>, lines: seq<Line>,
        product: string -> Unit, last: Unit)
    requires GoDown(lines, product) && AllFilledDown(cartons, product, last)
    requires |lines| > 0 ==> AsBulky(last, product(lines[0].item))
    ensures var r := PlaceLines(types, cartons, lines, product);
      r.Success? ==> AllFilledDown(r.value, product, if |lines| > 0 then product(lines[|lines| - 1].item) else last)
    decreases |lines|
  {
    if |lines| > 0 {
      var u := product(lines[0].item);
      LowerIsEnough(cartons, product, last, u);
      PlaceLineFillsDown(types, cartons, lines[0].item, lines[0].quantity, product);
      var r := PlaceLine(types, cartons, lines[0].item, lines[0].quantity, u);
      if r.Success? {
        assert GoDown(lines[1..], product);
        PlaceLinesFillDown(types, r.value, lines[1..], product, u);
      }
    }
  }

  lemma BulkOrders(product: string -> Unit)
    ensures Preorder(BulkyFirst(product))
  {
  }

  /** The bulkiest products come first: no carton holds anything bulkier than what it was opened for, and none was
      opened for anything bulkier than an earlier one, weight deciding between equal volumes. */
  lemma PlanPacksBulkyFirst(types: seq<Packaging>, lines: seq<Line>, product: string -> Unit)
    requires |lines| > 0
    ensures var r := Plan(types, lines, product);
      r.Success? ==> exists least: Unit :: AllFilledDown(r.value, product, least)
  {
    var sorted := SortBy(lines, BulkyFirst(product));
    SortPermutes(lines, BulkyFirst(product));
    BulkOrders(product);
    SortSorts(lines, BulkyFirst(product));
    assert GoDown(sorted, product) by {
      forall i, j | 0 <= i < j < |sorted| ensures AsBulky(product(sorted[i].item), product(sorted[j].item)) {
        assert BulkyFirst(product)(sorted[i], sorted[j]);
      }
    }
    PlaceLinesFillDown(types, [], sorted, product, product(sorted[0].item));
  }
}
