/** What a carton plan guarantees: limits, exact quantities, and when it is refused. */
module CartonPlans {
  import opened Basics
  import opened Sums
  import opened Sorting
  import opened Cartonization

  function WeightOf(): Row -> real { (r: Row) => r.weight }

  function VolumeOf(): Row -> real { (r: Row) => r.volume }

  function QuantityOf(item: string): Row -> real { (r: Row) => if r.item == item then r.quantity else 0.0 }

  function InCarton(item: string): Carton -> real { (c: Carton) => Sum(c.rows, QuantityOf(item)) }

  function OrderedOf(item: string): Line -> real { (l: Line) => if l.item == item then Max(l.quantity, 0.0) else 0.0 }

  /** There is room for one more unit. */
  ghost predicate HasRoom(u: Unit, roomWeight: Option<real>, roomVolume: Option<real>) {
    && (roomWeight.Some? && u.weight > 0.0 ==> u.weight <= roomWeight.value)
    && (roomVolume.Some? && u.volume > 0.0 ==> u.volume <= roomVolume.value)
  }

  ghost predicate Physical(product: string -> Unit) {
    forall item :: product(item).weight >= 0.0 && product(item).volume >= 0.0
  }

  /** Within its limits, with the rooms agreeing with the contents. */
  ghost predicate Packed(c: Carton, types: seq<Packaging>) {
    && c.packaging in types
    && |c.rows| > 0 && (forall m :: 0 <= m < |c.rows| ==> GoodRow(c.rows[m]))
    && Balanced(c)
  }

  ghost predicate GoodRow(r: Row) { r.quantity > 0.0 && r.weight >= 0.0 && r.volume >= 0.0 }

  ghost predicate Balanced(c: Carton) {
    && c.roomWeight == Less(Limit(c.packaging.maximumWeight), Sum(c.rows, WeightOf()))
    && c.roomVolume == Less(Limit(c.packaging.maximumVolume), Sum(c.rows, VolumeOf()))
    && (c.roomWeight.Some? ==> c.roomWeight.value >= 0.0)
    && (c.roomVolume.Some? ==> c.roomVolume.value >= 0.0)
  }

  ghost predicate AllPacked(cartons: seq<Carton>, types: seq<Packaging>) {
    forall i :: 0 <= i < |cartons| ==> Packed(cartons[i], types)
  }

  /** Nothing in a later carton would still fit, as one more unit, into an earlier one. */
  ghost predicate NoRoomBefore(cartons: seq<Carton>, product: string -> Unit) {
    forall i, j, m :: 0 <= i < j < |cartons| && 0 <= m < |cartons[j].rows| ==>
        Refuses(cartons[i], product(cartons[j].rows[m].item))
  }

  ghost predicate Refuses(c: Carton, u: Unit) { !HasRoom(u, c.roomWeight, c.roomVolume) }

  lemma QuotientFloor(room: real, unit: real, k: real)
    requires unit > 0.0
    ensures k <= room / unit <==> k * unit <= room
  {
    assert room == (room / unit) * unit;
  }

  lemma FitMeansRoom(u: Unit, roomWeight: Option<real>, roomVolume: Option<real>)
    ensures Fit(u, roomWeight, roomVolume) >= 1 <==> HasRoom(u, roomWeight, roomVolume)
  {
    if roomWeight.Some? && u.weight > 0.0 { QuotientFloor(roomWeight.value, u.weight, 1.0); }
    if roomVolume.Some? && u.volume > 0.0 { QuotientFloor(roomVolume.value, u.volume, 1.0); }
  }

  lemma FitIsSafe(u: Unit, roomWeight: Option<real>, roomVolume: Option<real>, k: real)
    requires 0.0 < k <= Fit(u, roomWeight, roomVolume) as real
    requires roomWeight.Some? ==> roomWeight.value >= 0.0
    requires roomVolume.Some? ==> roomVolume.value >= 0.0
    ensures roomWeight.Some? ==> k * u.weight <= roomWeight.value
    ensures roomVolume.Some? ==> k * u.volume <= roomVolume.value
  {
    if roomWeight.Some? {
      if u.weight > 0.0 { QuotientFloor(roomWeight.value, u.weight, k); } else { NotPositive(k, u.weight); }
    }
    if roomVolume.Some? {
      if u.volume > 0.0 { QuotientFloor(roomVolume.value, u.volume, k); } else { NotPositive(k, u.volume); }
    }
  }

  lemma NotPositive(k: real, x: real)
    requires k > 0.0 && x <= 0.0
    ensures k * x <= 0.0
  {
  }

  lemma AddRowSums(rows: seq<Row>, p: Row, other: string)
    ensures Sum(AddRow(rows, p), WeightOf()) == Sum(rows, WeightOf()) + p.weight
    ensures Sum(AddRow(rows, p), VolumeOf()) == Sum(rows, VolumeOf()) + p.volume
    ensures Sum(AddRow(rows, p), QuantityOf(other)) == Sum(rows, QuantityOf(other)) + if other == p.item then p.quantity
        else 0.0
  {
    var i := RowOf(rows, p.item);
    var after := AddRow(rows, p);
    if i < |rows| {
      SumUpdate(rows, i, after[i], WeightOf());
      SumUpdate(rows, i, after[i], VolumeOf());
      SumUpdate(rows, i, after[i], QuantityOf(other));
    } else {
      assert after[..|rows|] == rows;
    }
  }

  ghost predicate Holds(c: Carton, p: Row) {
    && (c.roomWeight.Some? ==> p.weight <= c.roomWeight.value)
    && (c.roomVolume.Some? ==> p.volume <= c.roomVolume.value)
  }

  lemma PutKeepsBalance(c: Carton, p: Row)
    requires Balanced(c) && Holds(c, p)
    ensures Balanced(Put(c, p))
  {
    AddRowSums(c.rows, p, p.item);
  }

  ghost predicate SoundTypes(types: seq<Packaging>) {
    forall t :: t in types ==> t.maximumWeight >= 0.0 && t.maximumVolume >= 0.0
  }

  /** As many units as fit are within the room that is left. */
  lemma PortionHolds(c: Carton, item: string, k: real, u: Unit)
    requires c.roomWeight.Some? ==> c.roomWeight.value >= 0.0
    requires c.roomVolume.Some? ==> c.roomVolume.value >= 0.0
    requires 0.0 < k <= FitInto(c, u) as real
    ensures Holds(c, Portion(item, k, u))
  {
    FitIsSafe(u, c.roomWeight, c.roomVolume, k);
  }

  function VolumeOfUnit(product: string -> Unit, r: Row): real { product(r.item).volume }

  /** Cartons were filled bulkiest unit first, and nothing placed so far is less bulky than `bound`. */
  ghost predicate Descending(cartons: seq<Carton>, product: string -> Unit, bound: real) {
    && (forall i :: 0 <= i < |cartons| ==> DescendingRows(cartons[i].rows, product, bound))
    && (forall i, j :: 0 <= i < j < |cartons| ==> First(cartons[j], product) <= First(cartons[i], product))
  }

  ghost predicate DescendingRows(rows: seq<Row>, product: string -> Unit, bound: real) {
    |rows| > 0 && forall m :: 0 <= m < |rows| ==>
        bound <= VolumeOfUnit(product, rows[m]) <= VolumeOfUnit(product, rows[0])
  }

  ghost function First(c: Carton, product: string -> Unit): real {
    if |c.rows| > 0 then VolumeOfUnit(product, c.rows[0]) else 0.0
  }

  /** Row quantities are whole, and the row volume is that many unit volumes. */
  ghost predicate WholeRow(r: Row, product: string -> Unit) {
    r.quantity >= 1.0 && IsWhole(r.quantity) && r.volume == Times(r.quantity.Floor, VolumeOfUnit(product, r))
  }

  ghost predicate IsWhole(q: real) { q == q.Floor as real }

  ghost predicate WholeRows(cartons: seq<Carton>, product: string -> Unit) {
    forall i, m :: 0 <= i < |cartons| && 0 <= m < |cartons[i].rows| ==> WholeRow(cartons[i].rows[m], product)
  }

  /** What every turn of the planning loops keeps. */
  ghost predicate PlanInvariant(cartons: seq<Carton>, types: seq<Packaging>, product: string -> Unit, bound: real,
        whole: bool)
  {
    && AllPacked(cartons, types)
    && NoRoomBefore(cartons, product)
    && Descending(cartons, product, bound)
    && (whole ==> WholeRows(cartons, product))
  }

  lemma LessRoomStillRefuses(c: Carton, p: Row, u: Unit)
    requires p.weight >= 0.0 && p.volume >= 0.0
    requires Refuses(c, u)
    ensures Refuses(Put(c, p), u)
  {
  }

  /** The rows after a placement are the old ones, possibly grown, and possibly one more at the end. */
  lemma AddRowItems(rows: seq<Row>, p: Row, m: nat)
    requires m < |AddRow(rows, p)|
    ensures m < |rows| ==> AddRow(rows, p)[m].item == rows[m].item
    ensures m >= |rows| ==> AddRow(rows, p)[m].item == p.item
  {
  }

  lemma PutIntoKeepsNoRoom(cartons: seq<Carton>, product: string -> Unit, j: nat, p: Row)
    requires j < |cartons| && NoRoomBefore(cartons, product)
    requires p.weight >= 0.0 && p.volume >= 0.0
    requires forall i :: 0 <= i < j ==> Refuses(cartons[i], product(p.item))
    ensures NoRoomBefore(cartons[j := Put(cartons[j], p)], product)
  {
    var after := cartons[j := Put(cartons[j], p)];
    forall a, b, m | 0 <= a < b < |after| && 0 <= m < |after[b].rows|
      ensures Refuses(after[a], product(after[b].rows[m].item))
    {
      if b == j {
        AddRowItems(cartons[j].rows, p, m);
        if m < |cartons[j].rows| { assert Refuses(cartons[a], product(cartons[b].rows[m].item)); }
      } else {
        assert Refuses(cartons[a], product(cartons[b].rows[m].item));
        if a == j { LessRoomStillRefuses(cartons[a], p, product(cartons[b].rows[m].item)); }
      }
    }
  }

  lemma PutIntoKeepsDescending(cartons: seq<Carton>, product: string -> Unit, bound: real, j: nat, p: Row)
    requires j < |cartons| && Descending(cartons, product, bound)
    requires VolumeOfUnit(product, p) == bound
    ensures Descending(cartons[j := Put(cartons[j], p)], product, bound)
  {
    var after := cartons[j := Put(cartons[j], p)];
    var rows := cartons[j].rows;
    assert DescendingRows(rows, product, bound);
    assert DescendingRows(after[j].rows, product, bound) by {
      AddRowItems(rows, p, 0);
      forall m | 0 <= m < |after[j].rows|
        ensures bound <= VolumeOfUnit(product, after[j].rows[m]) <= VolumeOfUnit(product, after[j].rows[0])
      {
        AddRowItems(rows, p, m);
      }
    }
  }

  lemma TimesAdds(m: nat, n: nat, c: real)
    ensures Times(m + n, c) == Times(m, c) + Times(n, c)
  {
    if n != 0 { TimesAdds(m, n - 1, c); }
  }

  lemma AddRowKeepsWhole(rows: seq<Row>, p: Row, product: string -> Unit, m: nat)
    requires forall i :: 0 <= i < |rows| ==> WholeRow(rows[i], product)
    requires WholeRow(p, product)
    requires m < |AddRow(rows, p)|
    ensures WholeRow(AddRow(rows, p)[m], product)
  {
    var i := RowOf(rows, p.item);
    if i < |rows| && m == i {
      TimesAdds(rows[i].quantity.Floor, p.quantity.Floor, VolumeOfUnit(product, p));
      assert (rows[i].quantity + p.quantity).Floor == rows[i].quantity.Floor + p.quantity.Floor;
    }
  }

  lemma PortionIsWhole(item: string, k: real, product: string -> Unit)
    requires k >= 1.0 && IsWhole(k)
    ensures WholeRow(Portion(item, k, product(item)), product)
  {
    TimesIsProduct(k.Floor, product(item).volume);
  }

  /** What a placing turn knows about the row it adds to carton `c`. */
  ghost predicate GoodPortion(c: Carton, p: Row, product: string -> Unit, whole: bool) {
    && Holds(c, p) && GoodRow(p)
    && (whole ==> WholeRow(p, product))
  }

  ghost predicate AllRefuse(cartons: seq<Carton>, u: Unit) {
    forall i :: 0 <= i < |cartons| ==> Refuses(cartons[i], u)
  }

  /** A turn that opens no carton. */
  lemma PutIntoKeepsInvariant(cartons: seq<Carton>, types: seq<Packaging>, product: string -> Unit, whole: bool, j: nat,
        p: Row)
    requires j < |cartons| && AllRefuse(cartons[..j], product(p.item))
    requires PlanInvariant(cartons, types, product, product(p.item).volume, whole)
    requires GoodPortion(cartons[j], p, product, whole)
    ensures PlanInvariant(cartons[j := Put(cartons[j], p)], types, product, product(p.item).volume, whole)
  {
    var after := cartons[j := Put(cartons[j], p)];
    assert Packed(cartons[j], types);
    PutKeepsBalance(cartons[j], p);
    forall i | 0 <= i < j ensures Refuses(cartons[i], product(p.item)) { assert cartons[..j][i] == cartons[i]; }
    PutIntoKeepsNoRoom(cartons, product, j, p);
    PutIntoKeepsDescending(cartons, product, product(p.item).volume, j, p);
    if whole {
      forall m | 0 <= m < |after[j].rows| ensures WholeRow(after[j].rows[m], product) {
        AddRowKeepsWhole(cartons[j].rows, p, product, m);
      }
    }
  }

  lemma OpeningKeepsNoRoom(cartons: seq<Carton>, product: string -> Unit, last: Carton, p: Row)
    requires AllRefuse(cartons, product(p.item)) && NoRoomBefore(cartons, product)
    requires last.rows == [p]
    ensures NoRoomBefore(cartons + [last], product)
  {
    var after := cartons + [last];
    forall a, b, m | 0 <= a < b < |after| && 0 <= m < |after[b].rows|
      ensures Refuses(after[a], product(after[b].rows[m].item))
    {
      if b < |cartons| { assert Refuses(cartons[a], product(cartons[b].rows[m].item)); }
    }
  }

  lemma OpeningKeepsDescending(cartons: seq<Carton>, product: string -> Unit, last: Carton, p: Row)
    requires Descending(cartons, product, VolumeOfUnit(product, p))
    requires last.rows == [p]
    ensures Descending(cartons + [last], product, VolumeOfUnit(product, p))
  {
    forall i | 0 <= i < |cartons| ensures First(last, product) <= First(cartons[i], product) {
      assert DescendingRows(cartons[i].rows, product, VolumeOfUnit(product, p));
    }
    assert DescendingRows(last.rows, product, VolumeOfUnit(product, p));
  }

  /** A turn that opens a carton, because no open one has room. */
  lemma OpeningKeepsInvariant(cartons: seq<Carton>, types: seq<Packaging>, product: string -> Unit, whole: bool,
        c: Carton, p: Row)
    requires AllRefuse(cartons, product(p.item))
    requires PlanInvariant(cartons, types, product, product(p.item).volume, whole)
    requires c.packaging in types && c.rows == [] && Balanced(c)
    requires GoodPortion(c, p, product, whole)
    ensures PlanInvariant(cartons + [Put(c, p)], types, product, product(p.item).volume, whole)
  {
    var last := Put(c, p);
    PutKeepsBalance(c, p);
    OpeningKeepsNoRoom(cartons, product, last, p);
    OpeningKeepsDescending(cartons, product, last, p);
  }

  lemma GoodPortionHolds(c: Carton, item: string, quantity: real, product: string -> Unit, whole: bool)
    requires Physical(product) && quantity > 0.0 && FitInto(c, product(item)) >= 1
    requires c.roomWeight.Some? ==> c.roomWeight.value >= 0.0
    requires c.roomVolume.Some? ==> c.roomVolume.value >= 0.0
    requires whole ==> IsWhole(quantity)
    ensures var k := Min(quantity, FitInto(c, product(item)) as real);
      GoodPortion(c, Portion(item, k, product(item)), product, whole) && (whole ==> IsWhole(quantity - k))
  {
    var u, fit := product(item), FitInto(c, product(item));
    var k := Min(quantity, fit as real);
    PortionHolds(c, item, k, u);
    PortionNotNegative(item, k, u);
    if whole {
      TakeIsWhole(quantity, fit);
      PortionIsWhole(item, k, product);
    }
  }

  lemma TakeIsWhole(quantity: real, fit: int)
    requires quantity > 0.0 && IsWhole(quantity) && fit >= 1
    ensures var k := Min(quantity, fit as real); k >= 1.0 && IsWhole(k) && IsWhole(quantity - k)
  {
    var n := quantity.Floor;
    var k := if n <= fit then n else fit;
    assert Min(quantity, fit as real) == k as real && quantity - k as real == (n - k) as real;
    IntegersAreWhole(k);
    IntegersAreWhole(n - k);
  }

  lemma IntegersAreWhole(n: int)
    ensures IsWhole(n as real)
  {
  }

  lemma PortionNotNegative(item: string, k: real, u: Unit)
    requires k > 0.0 && u.weight >= 0.0 && u.volume >= 0.0
    ensures Portion(item, k, u).weight >= 0.0 && Portion(item, k, u).volume >= 0.0
  {
  }

  lemma FirstWithRoomRefusals(cartons: seq<Carton>, u: Unit)
    ensures AllRefuse(cartons[..FirstWithRoom(cartons, u)], u)
  {
    forall i | 0 <= i < FirstWithRoom(cartons, u) ensures Refuses(cartons[i], u) {
      FitMeansRoom(u, cartons[i].roomWeight, cartons[i].roomVolume);
    }
  }

  lemma PlaceInOpenCarton(types: seq<Packaging>, cartons: seq<Carton>, item: string, quantity: real,
        product: string -> Unit, whole: bool, j: nat)
    requires Physical(product) && quantity > 0.0
    requires PlanInvariant(cartons, types, product, product(item).volume, whole)
    requires whole ==> IsWhole(quantity)
    requires j < |cartons| && FitInto(cartons[j], product(item)) >= 1 && AllRefuse(cartons[..j], product(item))
    ensures var k := Min(quantity, FitInto(cartons[j], product(item)) as real);
      PlanInvariant(cartons[j := Put(cartons[j], Portion(item, k, product(item)))], types, product,
          product(item).volume, whole)
      && (whole ==> IsWhole(quantity - k))
  {
    assert Packed(cartons[j], types);
    GoodPortionHolds(cartons[j], item, quantity, product, whole);
    PutIntoKeepsInvariant(cartons, types, product, whole, j, Portion(item, Min(quantity, FitInto(cartons[j],
        product(item)) as real), product(item)));
  }

  lemma PlaceInNewCarton(types: seq<Packaging>, cartons: seq<Carton>, item: string, quantity: real,
        product: string -> Unit, whole: bool, c: Carton)
    requires Physical(product) && quantity > 0.0
    requires PlanInvariant(cartons, types, product, product(item).volume, whole)
    requires whole ==> IsWhole(quantity)
    requires AllRefuse(cartons, product(item)) && FitInto(c, product(item)) >= 1
    requires SoundTypes(types) && c.packaging in types && c == EmptyCarton(c.packaging)
    ensures var k := Min(quantity, FitInto(c, product(item)) as real);
      PlanInvariant(cartons + [Put(c, Portion(item, k, product(item)))], types, product, product(item).volume, whole)
      && (whole ==> IsWhole(quantity - k))
  {
    GoodPortionHolds(c, item, quantity, product, whole);
    OpeningKeepsInvariant(cartons, types, product, whole, c, Portion(item, Min(quantity, FitInto(c,
        product(item)) as real), product(item)));
  }

  lemma PlaceSomeKeeps(types: seq<Packaging>, cartons: seq<Carton>, item: string, quantity: real,
        product: string -> Unit, whole: bool)
    requires SoundTypes(types) && Physical(product) && quantity > 0.0
    requires PlanInvariant(cartons, types, product, product(item).volume, whole)
    requires whole ==> IsWhole(quantity)
    ensures var r := PlaceSome(types, cartons, item, quantity, product(item));
      r.Success? ==>
        PlanInvariant(r.value.0, types, product, product(item).volume, whole) &&
        (whole ==> IsWhole(quantity - r.value.1))
  {
    var u := product(item);
    var j := FirstWithRoom(cartons, u);
    FirstWithRoomRefusals(cartons, u);
    if j < |cartons| {
      PlaceInOpenCarton(types, cartons, item, quantity, product, whole, j);
    } else {
      assert cartons[..j] == cartons;
      var c := OpenCarton(types, item, quantity, u);
      if c.Success? { PlaceInNewCarton(types, cartons, item, quantity, product, whole, c.value); }
    }
  }

  /** What one turn keeps, the whole loop over a line keeps. */
  lemma {:induction false} TurnsKeep(types: seq<Packaging>, cartons: seq<Carton>, item: string, quantity: real, u: Unit,
        inv: (seq<Carton>, real) -> bool)
    requires inv(cartons, quantity)
    requires forall cs, q :: inv(cs, q) && q > 0.0 ==> TurnKeeps(types, cs, item, q, u, inv)
    ensures var r := PlaceLine(types, cartons, item, quantity, u);
        r.Success? ==> exists q :: q <= 0.0 && inv(r.value, q)
    decreases Turns(quantity)
  {
    if quantity > 0.0 {
      assert TurnKeeps(types, cartons, item, quantity, u, inv);
      var step := PlaceSome(types, cartons, item, quantity, u);
      if step.Success? { TurnsKeep(types, step.value.0, item, quantity - step.value.1, u, inv); }
    }
  }

  ghost predicate TurnKeeps(types: seq<Packaging>, cartons: seq<Carton>, item: string, quantity: real, u: Unit,
        inv: (seq<Carton>, real) -> bool)
    requires quantity > 0.0
  {
    var step := PlaceSome(types, cartons, item, quantity, u);
    step.Success? ==> inv(step.value.0, quantity - step.value.1)
  }

  lemma PlaceLineKeeps(types: seq<Packaging>, cartons: seq<Carton>, item: string, quantity: real,
        product: string -> Unit, whole: bool)
    requires SoundTypes(types) && Physical(product)
    requires PlanInvariant(cartons, types, product, product(item).volume, whole)
    requires whole ==> IsWhole(quantity)
    ensures var r := PlaceLine(types, cartons, item, quantity, product(item));
      r.Success? ==> PlanInvariant(r.value, types, product, product(item).volume, whole)
  {
    var inv := (cs: seq<Carton>, q: real) => PlanInvariant(cs, types, product, product(item).volume, whole) &&
        (whole ==> IsWhole(q));
    forall cs, q | inv(cs, q) && q > 0.0 ensures TurnKeeps(types, cs, item, q, product(item), inv) {
      PlaceSomeKeeps(types, cs, item, q, product, whole);
    }
    TurnsKeep(types, cartons, item, quantity, product(item), inv);
  }

  ghost predicate WholeQuantities(lines: seq<Line>) {
    forall l :: l in lines ==> IsWhole(l.quantity)
  }

  lemma LowerBoundIsEnough(cartons: seq<Carton>, types: seq<Packaging>, product: string -> Unit, bound: real,
        lower: real, whole: bool)
    requires PlanInvariant(cartons, types, product, bound, whole) && lower <= bound
    ensures PlanInvariant(cartons, types, product, lower, whole)
  {
    forall i | 0 <= i < |cartons| ensures DescendingRows(cartons[i].rows, product, lower) {
      assert DescendingRows(cartons[i].rows, product, bound);
    }
  }

  lemma {:induction false} PlaceLinesKeeps(types: seq<Packaging>, cartons: seq<Carton>, lines: seq<Line>,
        product: string -> Unit, bound: real, whole: bool)
    requires SoundTypes(types) && Physical(product) && bound >= 0.0
    requires PlanInvariant(cartons, types, product, bound, whole)
    requires Sorted(lines, BulkyFirst(product))
    requires |lines| > 0 ==> product(lines[0].item).volume <= bound
    requires whole ==> WholeQuantities(lines)
    ensures var r := PlaceLines(types, cartons, lines, product);
      r.Success? ==> PlanInvariant(r.value, types, product, 0.0, whole)
    decreases |lines|
  {
    if |lines| == 0 {
      LowerBoundIsEnough(cartons, types, product, bound, 0.0, whole);
    } else {
      var l, volume := lines[0], product(lines[0].item).volume;
      LowerBoundIsEnough(cartons, types, product, bound, volume, whole);
      PlaceLineKeeps(types, cartons, l.item, l.quantity, product, whole);
      var r := PlaceLine(types, cartons, l.item, l.quantity, product(l.item));
      if r.Success? {
        TailIsSorted(lines, product);
        PlaceLinesKeeps(types, r.value, lines[1..], product, volume, whole);
      }
    }
  }

  lemma TailIsSorted(lines: seq<Line>, product: string -> Unit)
    requires |lines| > 0 && Sorted(lines, BulkyFirst(product))
    ensures Sorted(lines[1..], BulkyFirst(product))
    ensures |lines| > 1 ==> product(lines[1].item).volume <= product(lines[0].item).volume
  {
    if |lines| > 1 { assert BulkyFirst(product)(lines[0], lines[1]); }
  }

  // ---------------------------------------------------------------- what is in a row

  function Items(lines: seq<Line>): set<string> { set l | l in lines :: l.item }

  /** The row is of an ordered item, and its weight and volume are those of its quantity. */
  ghost predicate RowFrom(r: Row, items: set<string>, product: string -> Unit) {
    && r.item in items
    && r.weight == Scaled(r.quantity, product(r.item).weight)
    && r.volume == Scaled(r.quantity, product(r.item).volume)
  }

  ghost predicate RowsFrom(rows: seq<Row>, items: set<string>, product: string -> Unit) {
    forall m :: 0 <= m < |rows| ==> RowFrom(rows[m], items, product)
  }

  ghost predicate CartonsFrom(cartons: seq<Carton>, items: set<string>, product: string -> Unit) {
    forall i :: 0 <= i < |cartons| ==> RowsFrom(cartons[i].rows, items, product)
  }

  function Scaled(quantity: real, volume: real): real { quantity * volume }

  lemma AddsUp(a: real, b: real, v: real)
    ensures Scaled(a + b, v) == Scaled(a, v) + Scaled(b, v)
  {
  }

  lemma AddRowFrom(rows: seq<Row>, item: string, k: real, items: set<string>, product: string -> Unit)
    requires RowsFrom(rows, items, product) && item in items
    ensures RowsFrom(AddRow(rows, Portion(item, k, product(item))), items, product)
  {
    var p := Portion(item, k, product(item));
    var i := RowOf(rows, item);
    assert p.weight == Scaled(k, product(item).weight) && p.volume == Scaled(k, product(item).volume);
    if i < |rows| {
      AddsUp(rows[i].quantity, k, product(item).weight);
      AddsUp(rows[i].quantity, k, product(item).volume);
    }
  }

  lemma PlaceLineFrom(types: seq<Packaging>, cartons: seq<Carton>, item: string, quantity: real, items: set<string>,
        product: string -> Unit)
    requires CartonsFrom(cartons, items, product) && item in items
    ensures var r := PlaceLine(types, cartons, item, quantity, product(item));
        r.Success? ==> CartonsFrom(r.value, items, product)
  {
    var u := product(item);
    var inv := (cs: seq<Carton>, q: real) => CartonsFrom(cs, items, product);
    forall cs: seq<Carton>, q: real | inv(cs, q) && q > 0.0 ensures TurnKeeps(types, cs, item, q, u, inv) {
      var step := PlaceSome(types, cs, item, q, u);
      if step.Success? {
        var j := FirstWithRoom(cs, u);
        AddRowFrom(if j < |cs| then cs[j].rows else [], item, step.value.1, items, product);
      }
    }
    TurnsKeep(types, cartons, item, quantity, u, inv);
  }

  lemma {:induction false} PlaceLinesFrom(types: seq<Packaging>, cartons: seq<Carton>, lines: seq<Line>,
        items: set<string>, product: string -> Unit)
    requires CartonsFrom(cartons, items, product) && forall l <- lines :: l.item in items
    ensures var r := PlaceLines(types, cartons, lines, product); r.Success? ==> CartonsFrom(r.value, items, product)
    decreases |lines|
  {
    if |lines| > 0 {
      assert lines[0] in lines && forall l <- lines[1..] :: l in lines;
      PlaceLineFrom(types, cartons, lines[0].item, lines[0].quantity, items, product);
      var r := PlaceLine(types, cartons, lines[0].item, lines[0].quantity, product(lines[0].item));
      if r.Success? { PlaceLinesFrom(types, r.value, lines[1..], items, product); }
    }
  }

  /** Every row of a plan is of an ordered item, with the weight and the volume of its quantity. */
  lemma PlanIsFromLines(types: seq<Packaging>, lines: seq<Line>, product: string -> Unit)
    ensures var r := Plan(types, lines, product); r.Success? ==> CartonsFrom(r.value, Items(lines), product)
  {
    var sorted := SortBy(lines, BulkyFirst(product));
    SortPermutes(lines, BulkyFirst(product));
    forall l | l in sorted ensures l.item in Items(lines) { assert l in multiset(sorted) && l in multiset(lines); }
    PlaceLinesFrom(types, [], sorted, Items(lines), product);
  }

  // ---------------------------------------------------------------- the plan of a delivery

  /** Every planned carton respects its packaging, is not empty, and nothing in it would have fitted into an earlier
      one. */
  lemma PlanIsSafe(types: seq<Packaging>, lines: seq<Line>, product: string -> Unit, whole: bool)
    requires SoundTypes(types) && Physical(product)
    requires whole ==> WholeQuantities(lines)
    ensures var r := Plan(types, lines, product); r.Success? ==> PlanInvariant(r.value, types, product, 0.0, whole)
  {
    var sorted := SortBy(lines, BulkyFirst(product));
    SortPermutes(lines, BulkyFirst(product));
    SortSorts(lines, BulkyFirst(product));
    if whole {
      forall l | l in sorted ensures IsWhole(l.quantity) { assert l in multiset(sorted); assert l in multiset(lines); }
    }
    var bound := if |sorted| > 0 then product(sorted[0].item).volume else 0.0;
    PlaceLinesKeeps(types, [], sorted, product, bound, whole);
  }

  lemma LimitsAreKept(types: seq<Packaging>, lines: seq<Line>, product: string -> Unit, i: nat)
    requires SoundTypes(types) && Physical(product)
    requires Plan(types, lines, product).Success? && i < |Plan(types, lines, product).value|
    ensures var c := Plan(types, lines, product).value[i];
      && c.packaging in types && |c.rows| > 0
      && (c.packaging.maximumWeight > 0.0 ==> Sum(c.rows, WeightOf()) <= c.packaging.maximumWeight)
      && (c.packaging.maximumVolume > 0.0 ==> Sum(c.rows, VolumeOf()) <= c.packaging.maximumVolume)
  {
    PlanIsSafe(types, lines, product, false);
    assert Packed(Plan(types, lines, product).value[i], types);
  }

  lemma PlaceSomeIsExact(types: seq<Packaging>, cartons: seq<Carton>, item: string, quantity: real, u: Unit,
        other: string)
    requires quantity > 0.0
    ensures var r := PlaceSome(types, cartons, item, quantity, u);
      r.Success? ==> Sum(r.value.0, InCarton(other)) == Sum(cartons, InCarton(other)) + if other == item then r.value.1
          else 0.0
  {
    var r := PlaceSome(types, cartons, item, quantity, u);
    if r.Success? {
      var j, p := FirstWithRoom(cartons, u), Portion(item, r.value.1, u);
      if j < |cartons| {
        AddRowSums(cartons[j].rows, p, other);
        SumUpdate(cartons, j, Put(cartons[j], p), InCarton(other));
      } else {
        assert r.value.0[..|cartons|] == cartons;
        AddRowSums([], p, other);
      }
    }
  }

  lemma PlaceLineIsExact(types: seq<Packaging>, cartons: seq<Carton>, item: string, quantity: real, u: Unit,
        other: string)
    ensures var r := PlaceLine(types, cartons, item, quantity, u);
      r.Success? ==>
        Sum(r.value, InCarton(other)) ==
        Sum(cartons, InCarton(other)) + if other == item then Max(quantity, 0.0) else 0.0
  {
    var total := Sum(cartons, InCarton(other)) + if other == item then Max(quantity, 0.0) else 0.0;
    var inv := (cs: seq<Carton>, q: real) => Sum(cs, InCarton(other)) + (if other == item then Max(q, 0.0) else 0.0) ==
        total;
    forall cs, q | inv(cs, q) && q > 0.0 ensures TurnKeeps(types, cs, item, q, u, inv) {
      PlaceSomeIsExact(types, cs, item, q, u, other);
    }
    TurnsKeep(types, cartons, item, quantity, u, inv);
  }

  lemma {:induction false} PlaceLinesIsExact(types: seq<Packaging>, cartons: seq<Carton>, lines: seq<Line>,
        product: string -> Unit, other: string)
    ensures var r := PlaceLines(types, cartons, lines, product);
      r.Success? ==> Sum(r.value, InCarton(other)) == Sum(cartons, InCarton(other)) + Sum(lines, OrderedOf(other))
    decreases |lines|
  {
    if |lines| > 0 {
      var l := lines[0];
      PlaceLineIsExact(types, cartons, l.item, l.quantity, product(l.item), other);
      var r := PlaceLine(types, cartons, l.item, l.quantity, product(l.item));
      assert lines == [l] + lines[1..];
      SumConcat([l], lines[1..], OrderedOf(other));
      assert [l][..0] == [];
      assert Sum([l], OrderedOf(other)) == OrderedOf(other)(l);
      if r.Success? { PlaceLinesIsExact(types, r.value, lines[1..], product, other); }
    }
  }

  /** The cartons hold exactly what the lines ask for, item by item. */
  lemma PlanIsExact(types: seq<Packaging>, lines: seq<Line>, product: string -> Unit, item: string)
    ensures var r := Plan(types, lines, product);
        r.Success? ==> Sum(r.value, InCarton(item)) == Sum(lines, OrderedOf(item))
  {
    var sorted := SortBy(lines, BulkyFirst(product));
    SortPermutes(lines, BulkyFirst(product));
    SumPermutation(sorted, lines, OrderedOf(item));
    PlaceLinesIsExact(types, [], sorted, product, item);
  }

  ghost predicate HoldsUnit(types: seq<Packaging>, u: Unit) {
    exists t :: t in types && FitEmpty(t, u) >= 1
  }

  /** What fits into a partly filled carton fits into an empty one of its kind. */
  lemma RoomIsWithinPackaging(c: Carton, types: seq<Packaging>, u: Unit)
    requires Packed(c, types) && FitInto(c, u) >= 1
    ensures FitEmpty(c.packaging, u) >= 1
  {
    FitMeansRoom(u, c.roomWeight, c.roomVolume);
    SumNonNegative(c.rows, WeightOf());
    SumNonNegative(c.rows, VolumeOf());
    FitMeansRoom(u, Limit(c.packaging.maximumWeight), Limit(c.packaging.maximumVolume));
  }

  lemma PlaceSomeSucceeds(types: seq<Packaging>, cartons: seq<Carton>, item: string, quantity: real, u: Unit)
    requires quantity > 0.0 && AllPacked(cartons, types)
    ensures PlaceSome(types, cartons, item, quantity, u).Success? <==> HoldsUnit(types, u)
    ensures PlaceSome(types, cartons, item, quantity, u).Failure? ==>
        PlaceSome(types, cartons, item, quantity, u).error == DoesNotFit(item)
  {
    var j := FirstWithRoom(cartons, u);
    if j < |cartons| {
      assert Packed(cartons[j], types);
      RoomIsWithinPackaging(cartons[j], types, u);
    }
  }

  /** A line is placed whenever some packaging holds one of its units, and only then. */
  lemma {:induction false} TurnsSucceed(types: seq<Packaging>, cartons: seq<Carton>, item: string, quantity: real,
        u: Unit, inv: (seq<Carton>, real) -> bool)
    requires inv(cartons, quantity)
    requires forall cs, q :: inv(cs, q) && q > 0.0 ==>
      TurnKeeps(types, cs, item, q, u, inv) && (PlaceSome(types, cs, item, q, u).Success? <==> HoldsUnit(types, u))
    ensures PlaceLine(types, cartons, item, quantity, u).Success? <==> quantity <= 0.0 || HoldsUnit(types, u)
    decreases Turns(quantity)
  {
    if quantity > 0.0 {
      assert TurnKeeps(types, cartons, item, quantity, u, inv);
      var step := PlaceSome(types, cartons, item, quantity, u);
      if step.Success? { TurnsSucceed(types, step.value.0, item, quantity - step.value.1, u, inv); }
    }
  }

  lemma PlaceLineSucceeds(types: seq<Packaging>, cartons: seq<Carton>, item: string, quantity: real,
        product: string -> Unit)
    requires SoundTypes(types) && Physical(product)
    requires PlanInvariant(cartons, types, product, product(item).volume, false)
    ensures PlaceLine(types, cartons, item, quantity, product(item)).Success? <==>
        quantity <= 0.0 || HoldsUnit(types, product(item))
  {
    var u := product(item);
    var inv := (cs: seq<Carton>, q: real) => PlanInvariant(cs, types, product, u.volume, false);
    forall cs, q | inv(cs, q) && q > 0.0
      ensures TurnKeeps(types, cs, item, q, u, inv)
      ensures (PlaceSome(types, cs, item, q, u).Success? <==> HoldsUnit(types, u))
    {
      PlaceSomeKeeps(types, cs, item, q, product, false);
      PlaceSomeSucceeds(types, cs, item, q, u);
    }
    TurnsSucceed(types, cartons, item, quantity, u, inv);
  }

  ghost predicate Packable(types: seq<Packaging>, l: Line, product: string -> Unit) {
    l.quantity <= 0.0 || HoldsUnit(types, product(l.item))
  }

  lemma {:induction false} PlaceLinesSucceeds(types: seq<Packaging>, cartons: seq<Carton>, lines: seq<Line>,
        product: string -> Unit, bound: real)
    requires SoundTypes(types) && Physical(product) && bound >= 0.0
    requires PlanInvariant(cartons, types, product, bound, false)
    requires Sorted(lines, BulkyFirst(product))
    requires |lines| > 0 ==> product(lines[0].item).volume <= bound
    ensures PlaceLines(types, cartons, lines, product).Success? <==>
        forall l :: l in lines ==> Packable(types, l, product)
    decreases |lines|
  {
    if |lines| > 0 {
      var l, volume := lines[0], product(lines[0].item).volume;
      LowerBoundIsEnough(cartons, types, product, bound, volume, false);
      PlaceLineKeeps(types, cartons, l.item, l.quantity, product, false);
      PlaceLineSucceeds(types, cartons, l.item, l.quantity, product);
      var r := PlaceLine(types, cartons, l.item, l.quantity, product(l.item));
      if r.Success? {
        TailIsSorted(lines, product);
        PlaceLinesSucceeds(types, r.value, lines[1..], product, volume);
        assert forall x :: x in lines <==> x == l || x in lines[1..];
        assert Packable(types, l, product);
      } else {
        assert l in lines && !Packable(types, l, product);
      }
    }
  }

  /** A plan is refused only when there is no packaging, an item has no measures, or a unit of an item fits into no
      packaging. */
  lemma PlanIsRefusedExactly(types: seq<Packaging>, lines: seq<Line>, product: string -> Unit)
    requires SoundTypes(types) && Physical(product)
    ensures Plan(types, lines, product).Success? <==>
      |types| > 0 && forall l :: l in lines ==>
        (product(l.item).weight > 0.0 || product(l.item).volume > 0.0) && Packable(types, l, product)
  {
    var sorted := SortBy(lines, BulkyFirst(product));
    SortPermutes(lines, BulkyFirst(product));
    SortSorts(lines, BulkyFirst(product));
    assert forall l :: l in sorted <==> l in multiset(sorted);
    var bound := if |sorted| > 0 then product(sorted[0].item).volume else 0.0;
    PlaceLinesSucceeds(types, [], sorted, product, bound);
  }
}
