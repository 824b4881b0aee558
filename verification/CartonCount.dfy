/** How many cartons a plan takes, compared with the volume and with any other packing. */
module CartonCount {
  import opened Basics
  import opened Sums
  import opened Sorting
  import opened Cartonization
  import opened CartonPlans
  import opened FirstFit

  /** The units a row stands for. */
  function Copies(n: nat, volume: real): seq<real> { seq(n, _ => volume) }

  function RowUnits(r: Row, product: string -> Unit): seq<real> {
    if r.quantity <= 0.0 then [] else Copies(r.quantity.Floor, product(r.item).volume)
  }

  function Units(rows: seq<Row>, product: string -> Unit): Bin {
    if |rows| == 0 then [] else Units(rows[..|rows| - 1], product) + RowUnits(rows[|rows| - 1], product)
  }

  function Bins(cartons: seq<Carton>, product: string -> Unit): seq<Bin> {
    seq(|cartons|, i requires 0 <= i < |cartons| => Units(cartons[i].rows, product))
  }

  lemma {:induction false} CopiesLoad(n: nat, volume: real)
    ensures Load(Copies(n, volume)) == Times(n, volume)
  {
    if n > 0 {
      assert Copies(n, volume)[..n - 1] == Copies(n - 1, volume);
      CopiesLoad(n - 1, volume);
    }
  }

  ghost predicate WholeRowsOf(rows: seq<Row>, product: string -> Unit) {
    forall m :: 0 <= m < |rows| ==> WholeRow(rows[m], product)
  }

  lemma {:induction false} UnitsLoad(rows: seq<Row>, product: string -> Unit)
    requires WholeRowsOf(rows, product)
    ensures Load(Units(rows, product)) == Sum(rows, VolumeOf())
  {
    if |rows| > 0 {
      var n := |rows| - 1;
      UnitsLoad(rows[..n], product);
      SumConcat(Units(rows[..n], product), RowUnits(rows[n], product), Itself);
      CopiesLoad(rows[n].quantity.Floor, product(rows[n].item).volume);
    }
  }

  /** Every unit of a carton comes from one of its rows. */
  lemma {:induction false} UnitComesFromRow(rows: seq<Row>, product: string -> Unit, u: real) returns (m: nat)
    requires u in Units(rows, product)
    ensures m < |rows| && u == VolumeOfUnit(product, rows[m])
  {
    var n := |rows| - 1;
    if u in RowUnits(rows[n], product) {
      m := n;
    } else {
      m := UnitComesFromRow(rows[..n], product, u);
    }
  }

  lemma {:induction false} FirstUnitIsFirstRow(rows: seq<Row>, product: string -> Unit)
    requires |rows| > 0 && WholeRowsOf(rows, product)
    ensures |Units(rows, product)| > 0 && Units(rows, product)[0] == VolumeOfUnit(product, rows[0])
  {
    var n := |rows| - 1;
    if n == 0 {
      assert Units(rows[..0], product) == [];
    } else {
      FirstUnitIsFirstRow(rows[..n], product);
    }
  }

  lemma UnitsAreValid(c: Carton, types: seq<Packaging>, product: string -> Unit, limit: real)
    requires Packed(c, types) && WholeRowsOf(c.rows, product)
    requires c.packaging.maximumVolume == limit > 0.0
    requires forall m :: 0 <= m < |c.rows| ==> VolumeOfUnit(product, c.rows[m]) > 0.0
    ensures ValidBin(Units(c.rows, product), limit) && Load(Units(c.rows, product)) == limit - c.roomVolume.value
  {
    var b := Units(c.rows, product);
    UnitsLoad(c.rows, product);
    FirstUnitIsFirstRow(c.rows, product);
    forall m | 0 <= m < |b| ensures b[m] > 0.0 { var k := UnitComesFromRow(c.rows, product, b[m]); }
  }

  /** One kind of packaging, limited by volume alone, and ordered items that take up volume. */
  ghost predicate OneVolumeLimit(types: seq<Packaging>, lines: seq<Line>, product: string -> Unit, limit: real) {
    && limit > 0.0 && |types| == 1 && types[0].maximumWeight == 0.0 && types[0].maximumVolume == limit
    && Physical(product) && (forall l <- lines :: product(l.item).volume > 0.0)
  }

  // ---------------------------------------------------------------- any quantities

  /** The later carton's items: one more unit of each would have overflowed the earlier carton. */
  lemma UnitOverflows(types: seq<Packaging>, lines: seq<Line>, product: string -> Unit, limit: real, i: nat, j: nat,
        m: nat)
    requires OneVolumeLimit(types, lines, product, limit)
    requires Plan(types, lines, product).Success? && i < j < |Plan(types, lines, product).value|
    requires m < |Plan(types, lines, product).value[j].rows|
    ensures var cartons := Plan(types, lines, product).value;
      && product(cartons[j].rows[m].item).volume > 0.0
      && Sum(cartons[i].rows, VolumeOf()) + product(cartons[j].rows[m].item).volume > limit
  {
    var cartons := Plan(types, lines, product).value;
    PlanIsSafe(types, lines, product, false);
    PlanIsFromLines(types, lines, product);
    assert Packed(cartons[i], types) && RowsFrom(cartons[j].rows, Items(lines), product);
    assert RowFrom(cartons[j].rows[m], Items(lines), product);
    var l :| l in lines && l.item == cartons[j].rows[m].item;
    assert Refuses(cartons[i], product(cartons[j].rows[m].item));
  }

  ghost predicate HoldsWholeUnit(c: Carton) { exists m :: 0 <= m < |c.rows| && c.rows[m].quantity >= 1.0 }

  lemma AtLeastOne(q: real, v: real)
    requires q >= 1.0 && v > 0.0
    ensures Scaled(q, v) >= v
  {
    AddsUp(1.0, q - 1.0, v);
  }

  /** Two cartons together hold more than one can, whenever the later one holds a whole unit of something. */
  lemma TwoCartonsExceedOne(types: seq<Packaging>, lines: seq<Line>, product: string -> Unit, limit: real, i: nat,
        j: nat)
    requires OneVolumeLimit(types, lines, product, limit)
    requires Plan(types, lines, product).Success? && i < j < |Plan(types, lines, product).value|
    requires HoldsWholeUnit(Plan(types, lines, product).value[j])
    ensures var cartons := Plan(types, lines, product).value;
      Sum(cartons[i].rows, VolumeOf()) + Sum(cartons[j].rows, VolumeOf()) > limit
  {
    var cartons := Plan(types, lines, product).value;
    var m :| 0 <= m < |cartons[j].rows| && cartons[j].rows[m].quantity >= 1.0;
    UnitOverflows(types, lines, product, limit, i, j, m);
    PlanIsSafe(types, lines, product, false);
    PlanIsFromLines(types, lines, product);
    assert Packed(cartons[j], types) && RowsFrom(cartons[j].rows, Items(lines), product);
    HoldsUnitVolume(cartons[j].rows, m, Items(lines), product);
  }

  lemma HoldsUnitVolume(rows: seq<Row>, m: nat, items: set<string>, product: string -> Unit)
    requires RowsFrom(rows, items, product) && m < |rows| && rows[m].quantity >= 1.0
    requires product(rows[m].item).volume > 0.0
    requires forall k :: 0 <= k < |rows| ==> GoodRow(rows[k])
    ensures Sum(rows, VolumeOf()) >= product(rows[m].item).volume
  {
    assert RowFrom(rows[m], items, product);
    AtLeastOne(rows[m].quantity, product(rows[m].item).volume);
    SumAtLeastTerm(rows, m, VolumeOf());
  }

  /** Two cartons whose loads fit into one: the later one then holds less than a unit's volume of each of its items. */
  lemma OnlyPartsAreWasted(types: seq<Packaging>, lines: seq<Line>, product: string -> Unit, limit: real, i: nat,
        j: nat, m: nat)
    requires OneVolumeLimit(types, lines, product, limit)
    requires Plan(types, lines, product).Success? && i < j < |Plan(types, lines, product).value|
    requires m < |Plan(types, lines, product).value[j].rows|
    requires var cartons := Plan(types, lines, product).value;
        Sum(cartons[i].rows, VolumeOf()) + Sum(cartons[j].rows, VolumeOf()) <= limit
    ensures var c := Plan(types, lines, product).value[j];
      Sum(c.rows, VolumeOf()) < product(c.rows[m].item).volume && c.rows[m].quantity < 1.0
  {
    UnitOverflows(types, lines, product, limit, i, j, m);
    if Plan(types, lines, product).value[j].rows[m].quantity >= 1.0 {
      TwoCartonsExceedOne(types, lines, product, limit, i, j);
    }
  }

  function VolumeIn(): Carton -> real { (c: Carton) => Sum(c.rows, VolumeOf()) }

  /** Two or more cartons, all but the first holding a whole unit of something, are on average more than half full:
      fewer than twice the volume over the limit are used. */
  lemma CartonsAreMoreThanHalfFull(types: seq<Packaging>, lines: seq<Line>, product: string -> Unit, limit: real)
    requires OneVolumeLimit(types, lines, product, limit)
    requires Plan(types, lines, product).Success? && |Plan(types, lines, product).value| >= 2
    requires forall j ::
        0 < j < |Plan(types, lines, product).value| ==> HoldsWholeUnit(Plan(types, lines, product).value[j])
    ensures var cartons := Plan(types, lines, product).value;
      Times(|cartons|, limit) < 2.0 * Sum(cartons, VolumeIn())
  {
    var cartons := Plan(types, lines, product).value;
    forall i, j | 0 <= i < j < |cartons|
      ensures VolumeIn()(cartons[i]) + VolumeIn()(cartons[j]) > limit
    {
      TwoCartonsExceedOne(types, lines, product, limit, i, j);
    }
    PairsExceed(cartons, VolumeIn(), limit);
  }

  /** With whole quantities every carton holds a whole unit. */
  lemma WholeQuantitiesFillCartons(types: seq<Packaging>, lines: seq<Line>, product: string -> Unit, j: nat)
    requires SoundTypes(types) && Physical(product) && WholeQuantities(lines)
    requires Plan(types, lines, product).Success? && j < |Plan(types, lines, product).value|
    ensures HoldsWholeUnit(Plan(types, lines, product).value[j])
  {
    var cartons := Plan(types, lines, product).value;
    PlanIsSafe(types, lines, product, true);
    assert Packed(cartons[j], types);
    assert WholeRow(cartons[j].rows[0], product);
  }

  // ---------------------------------------------------------------- whole units as bins

  lemma CartonIsBin(types: seq<Packaging>, lines: seq<Line>, product: string -> Unit, limit: real, cartons: seq<Carton>,
        i: nat)
    requires OneVolumeLimit(types, lines, product, limit) && PlanInvariant(cartons, types, product, 0.0, true)
    requires CartonsFrom(cartons, Items(lines), product)
    requires i < |cartons|
    ensures var b := Units(cartons[i].rows, product);
      && ValidBin(b, limit) && Load(b) == Sum(cartons[i].rows, VolumeOf()) == limit - cartons[i].roomVolume.value
      && b[0] == First(cartons[i], product) && forall m :: 0 <= m < |b| ==> b[m] <= b[0]
  {
    var c := cartons[i];
    assert Packed(c, types) && RowsFrom(c.rows, Items(lines), product);
    forall m | 0 <= m < |c.rows| ensures VolumeOfUnit(product, c.rows[m]) > 0.0 {
      assert RowFrom(c.rows[m], Items(lines), product);
      var l :| l in lines && l.item == c.rows[m].item;
    }
    UnitsLoad(c.rows, product);
    UnitsAreValid(c, types, product, limit);
    FirstUnitIsFirstRow(c.rows, product);
    var b := Units(c.rows, product);
    forall m | 0 <= m < |b| ensures b[m] <= b[0] {
      assert DescendingRows(c.rows, product, 0.0);
      var k := UnitComesFromRow(c.rows, product, b[m]);
    }
  }

  lemma LaterUnitOverflows(types: seq<Packaging>, lines: seq<Line>, product: string -> Unit, limit: real,
        cartons: seq<Carton>, i: nat, j: nat, u: real)
    requires OneVolumeLimit(types, lines, product, limit) && PlanInvariant(cartons, types, product, 0.0, true)
    requires CartonsFrom(cartons, Items(lines), product)
    requires i < j < |cartons| && u in Units(cartons[j].rows, product)
    ensures Load(Units(cartons[i].rows, product)) + u > limit
  {
    CartonIsBin(types, lines, product, limit, cartons, i);
    var k := UnitComesFromRow(cartons[j].rows, product, u);
    assert Refuses(cartons[i], product(cartons[j].rows[k].item));
    assert Packed(cartons[i], types);
  }

  /** Read as bins of units, the plan is a first-fit-decreasing packing. */
  lemma PlanIsFirstFitDecreasing(types: seq<Packaging>, lines: seq<Line>, product: string -> Unit, limit: real,
        cartons: seq<Carton>)
    requires OneVolumeLimit(types, lines, product, limit) && PlanInvariant(cartons, types, product, 0.0, true)
    requires CartonsFrom(cartons, Items(lines), product)
    ensures var bins := Bins(cartons, product);
      ValidPacking(bins, limit) && FirstFitPacking(bins, limit) && DecreasingPacking(bins)
  {
    var bins := Bins(cartons, product);
    forall i | 0 <= i < |bins|
      ensures ValidBin(bins[i], limit) && bins[i][0] == First(cartons[i], product)
      ensures forall m :: 0 <= m < |bins[i]| ==> bins[i][m] <= bins[i][0]
    {
      CartonIsBin(types, lines, product, limit, cartons, i);
    }
    forall i, j, m | 0 <= i < j < |bins| && 0 <= m < |bins[j]| ensures Load(bins[i]) + bins[j][m] > limit {
      LaterUnitOverflows(types, lines, product, limit, cartons, i, j, bins[j][m]);
    }
    forall i, j | 0 <= i < j < |bins| ensures bins[j][0] <= bins[i][0] {
      assert First(cartons[j], product) <= First(cartons[i], product);
    }
  }

  /** `n` units of one volume. */
  function Bag(n: nat, volume: real): multiset<real> { multiset{}[volume := n] }

  function Whole(q: real): nat { if q <= 0.0 then 0 else q.Floor }

  function RowBag(product: string -> Unit): Row -> multiset<real> {
    (r: Row) => Bag(Whole(r.quantity), VolumeOfUnit(product, r))
  }

  function CartonBag(product: string -> Unit): Carton -> multiset<real> {
    (c: Carton) => BagSum(c.rows, RowBag(product))
  }

  /** The units a line of the delivery asks for. */
  function LineBag(product: string -> Unit): Line -> multiset<real> {
    (l: Line) => Bag(Whole(l.quantity), product(l.item).volume)
  }

  lemma {:induction false} CopiesBag(n: nat, volume: real)
    ensures multiset(Copies(n, volume)) == Bag(n, volume)
  {
    if n > 0 {
      assert Copies(n, volume) == Copies(n - 1, volume) + [volume];
      CopiesBag(n - 1, volume);
    }
  }

  lemma {:induction false} UnitsBag(rows: seq<Row>, product: string -> Unit)
    ensures multiset(Units(rows, product)) == BagSum(rows, RowBag(product))
  {
    if |rows| > 0 {
      var n := |rows| - 1;
      UnitsBag(rows[..n], product);
      CopiesBag(Whole(rows[n].quantity), VolumeOfUnit(product, rows[n]));
    }
  }

  lemma {:induction false} BinsBag(cartons: seq<Carton>, product: string -> Unit)
    ensures multiset(Flatten(Bins(cartons, product))) == BagSum(cartons, CartonBag(product))
  {
    if |cartons| > 0 {
      var n := |cartons| - 1;
      assert Bins(cartons, product)[..n] == Bins(cartons[..n], product);
      BinsBag(cartons[..n], product);
      UnitsBag(cartons[n].rows, product);
    }
  }

  lemma WholeAdds(a: real, b: real)
    requires a >= 0.0 && b >= 0.0 && IsWhole(a) && IsWhole(b)
    ensures Whole(a + b) == Whole(a) + Whole(b)
  {
    assert a + b == (Whole(a) + Whole(b)) as real;
  }

  lemma AddRowBag(rows: seq<Row>, p: Row, product: string -> Unit)
    requires WholeRowsOf(rows, product) && WholeRow(p, product)
    ensures BagSum(AddRow(rows, p), RowBag(product)) == BagSum(rows, RowBag(product)) + RowBag(product)(p)
  {
    var i := RowOf(rows, p.item);
    if i < |rows| {
      WholeAdds(rows[i].quantity, p.quantity);
      BagSumUpdate(rows, i, AddRow(rows, p)[i], RowBag(product)(p), RowBag(product));
    } else {
      assert AddRow(rows, p)[..|rows|] == rows;
    }
  }

  lemma Regroup<T>(before: multiset<T>, gained: multiset<T>, after: multiset<T>, rest: multiset<T>, all: multiset<T>)
    requires after == before + gained && all == gained + rest
    ensures after + rest == before + all
  {
  }

  lemma PutBag(cartons: seq<Carton>, c: Carton, p: Row, j: nat, product: string -> Unit)
    requires WholeRowsOf(c.rows, product) && WholeRow(p, product)
    requires if j < |cartons| then c == cartons[j] else j == |cartons| && c.rows == []
    ensures BagSum(if j < |cartons| then cartons[j := Put(c, p)] else cartons + [Put(c, p)], CartonBag(product))
         == BagSum(cartons, CartonBag(product)) + RowBag(product)(p)
  {
    AddRowBag(c.rows, p, product);
    if j < |cartons| {
      BagSumUpdate(cartons, j, Put(c, p), RowBag(product)(p), CartonBag(product));
    } else {
      assert (cartons + [Put(c, p)])[..|cartons|] == cartons;
      assert BagSum(c.rows, RowBag(product)) == multiset{};
    }
  }

  lemma QuantityBag(item: string, quantity: real, fit: int, product: string -> Unit)
    requires quantity > 0.0 && IsWhole(quantity) && fit >= 1
    ensures var k := Min(quantity, fit as real);
      WholeRow(Portion(item, k, product(item)), product)
      && LineBag(product)(Line(item, quantity)) ==
          RowBag(product)(Portion(item, k, product(item))) + LineBag(product)(Line(item, quantity - k))
  {
    var k := Min(quantity, fit as real);
    TakeIsWhole(quantity, fit);
    WholeAdds(k, quantity - k);
    PortionIsWhole(item, k, product);
  }

  lemma PlaceSomeBag(types: seq<Packaging>, cartons: seq<Carton>, item: string, quantity: real, product: string -> Unit)
    requires quantity > 0.0 && IsWhole(quantity) && WholeRows(cartons, product)
    ensures var r := PlaceSome(types, cartons, item, quantity, product(item));
      r.Success? ==> BagSum(r.value.0, CartonBag(product)) + LineBag(product)(Line(item, quantity - r.value.1))
                     == BagSum(cartons, CartonBag(product)) + LineBag(product)(Line(item, quantity))
  {
    var r := PlaceSome(types, cartons, item, quantity, product(item));
    if r.Success? {
      var j := FirstWithRoom(cartons, product(item));
      var c := if j < |cartons| then cartons[j] else OpenCarton(types, item, quantity, product(item)).value;
      var p := Portion(item, r.value.1, product(item));
      QuantityBag(item, quantity, FitInto(c, product(item)), product);
      PutBag(cartons, c, p, j, product);
      Regroup(BagSum(cartons, CartonBag(product)), RowBag(product)(p), BagSum(r.value.0, CartonBag(product)),
              LineBag(product)(Line(item, quantity - r.value.1)), LineBag(product)(Line(item, quantity)));
    }
  }

  lemma PlaceLineBag(types: seq<Packaging>, cartons: seq<Carton>, l: Line, product: string -> Unit)
    requires SoundTypes(types) && Physical(product) && IsWhole(l.quantity)
    requires PlanInvariant(cartons, types, product, product(l.item).volume, true)
    ensures var r := PlaceLine(types, cartons, l.item, l.quantity, product(l.item));
      r.Success? ==> BagSum(r.value, CartonBag(product)) == BagSum(cartons, CartonBag(product)) + LineBag(product)(l)
  {
    var total := BagSum(cartons, CartonBag(product)) + LineBag(product)(l);
    var inv := (cs: seq<Carton>, q: real) =>
      && PlanInvariant(cs, types, product, product(l.item).volume, true) && IsWhole(q)
      && BagSum(cs, CartonBag(product)) + LineBag(product)(Line(l.item, q)) == total;
    forall cs, q | inv(cs, q) && q > 0.0 ensures TurnKeeps(types, cs, l.item, q, product(l.item), inv) {
      PlaceSomeKeeps(types, cs, l.item, q, product, true);
      PlaceSomeBag(types, cs, l.item, q, product);
    }
    TurnsKeep(types, cartons, l.item, l.quantity, product(l.item), inv);
  }

  lemma HeadBag(lines: seq<Line>, product: string -> Unit)
    requires |lines| > 0
    ensures BagSum(lines, LineBag(product)) == LineBag(product)(lines[0]) + BagSum(lines[1..], LineBag(product))
  {
    BagSumConcat([lines[0]], lines[1..], LineBag(product));
    assert lines == [lines[0]] + lines[1..] && [lines[0]][..0] == [];
  }

  lemma {:induction false} PlaceLinesBag(types: seq<Packaging>, cartons: seq<Carton>, lines: seq<Line>,
        product: string -> Unit, bound: real)
    requires SoundTypes(types) && Physical(product) && WholeQuantities(lines) && bound >= 0.0
    requires PlanInvariant(cartons, types, product, bound, true)
    requires Sorted(lines, BulkyFirst(product))
    requires |lines| > 0 ==> product(lines[0].item).volume <= bound
    ensures var r := PlaceLines(types, cartons, lines, product);
      r.Success? ==>
        BagSum(r.value, CartonBag(product)) == BagSum(cartons, CartonBag(product)) + BagSum(lines, LineBag(product))
    decreases |lines|
  {
    if |lines| > 0 {
      var l, volume := lines[0], product(lines[0].item).volume;
      LowerBoundIsEnough(cartons, types, product, bound, volume, true);
      PlaceLineKeeps(types, cartons, l.item, l.quantity, product, true);
      PlaceLineBag(types, cartons, l, product);
      var r := PlaceLine(types, cartons, l.item, l.quantity, product(l.item));
      if r.Success? {
        TailIsSorted(lines, product);
        PlaceLinesBag(types, r.value, lines[1..], product, volume);
        HeadBag(lines, product);
        var end := PlaceLines(types, r.value, lines[1..], product);
        if end.Success? {
          Regroup(BagSum(cartons, CartonBag(product)), LineBag(product)(l), BagSum(r.value, CartonBag(product)),
                  BagSum(lines[1..], LineBag(product)), BagSum(lines, LineBag(product)));
        }
      }
    }
  }

  /** The cartons hold exactly the units the lines ask for. */
  lemma PlanPacksTheUnits(types: seq<Packaging>, lines: seq<Line>, product: string -> Unit)
    requires SoundTypes(types) && Physical(product) && WholeQuantities(lines)
    requires Plan(types, lines, product).Success?
    ensures multiset(Flatten(Bins(Plan(types, lines, product).value, product))) == BagSum(lines, LineBag(product))
  {
    var sorted := SortBy(lines, BulkyFirst(product));
    SortPermutes(lines, BulkyFirst(product));
    SortSorts(lines, BulkyFirst(product));
    BagSumPermutation(sorted, lines, LineBag(product));
    forall l | l in sorted ensures IsWhole(l.quantity) { assert l in multiset(sorted); assert l in multiset(lines); }
    var bound := if |sorted| > 0 then product(sorted[0].item).volume else 0.0;
    PlaceLinesBag(types, [], sorted, product, bound);
    BinsBag(Plan(types, lines, product).value, product);
  }

  /** No other way to pack the delivery's units into the same packaging saves more than a third of the cartons. */
  lemma AtMostHalfAgainTheOptimum(types: seq<Packaging>, lines: seq<Line>, product: string -> Unit, limit: real,
        other: seq<Bin>)
    requires OneVolumeLimit(types, lines, product, limit) && WholeQuantities(lines)
    requires Plan(types, lines, product).Success?
    requires ValidPacking(other, limit) && multiset(Flatten(other)) == BagSum(lines, LineBag(product))
    ensures 2 * |Plan(types, lines, product).value| <= 3 * |other|
  {
    PlanIsSafe(types, lines, product, true);
    PlanIsFromLines(types, lines, product);
    PlanIsFirstFitDecreasing(types, lines, product, limit, Plan(types, lines, product).value);
    PlanPacksTheUnits(types, lines, product);
    ThreeHalvesBound(Bins(Plan(types, lines, product).value, product), other, limit);
  }

  // ---------------------------------------------------------------- one line

  function Box(limit: real): Packaging { Packaging("BOX", 0.0, limit) }

  /** In boxes of this volume, two of the line's cartons hold what one could. */
  ghost predicate Wastes(limit: real, line: Line, product: string -> Unit) {
    && limit > 0.0 && Plan([Box(limit)], [line], product).Success?
    && var cartons := Plan([Box(limit)], [line], product).value;
      exists i, j :: 0 <= i < j < |cartons| &&
          Sum(cartons[i].rows, VolumeOf()) + Sum(cartons[j].rows, VolumeOf()) <= limit
  }

  lemma PlanOfOne(limit: real, line: Line, product: string -> Unit)
    requires limit > 0.0 && product(line.item).volume > 0.0
    ensures Plan([Box(limit)], [line], product) ==
        PlaceLine([Box(limit)], [], line.item, line.quantity, product(line.item))
  {
    assert SortBy([line], BulkyFirst(product)) == [line] by { assert [line][1..] == []; }
    assert FirstUnmeasured([line], product) == 1 by { assert [line][1..] == []; }
    var r := PlaceLine([Box(limit)], [], line.item, line.quantity, product(line.item));
    if r.Success? { assert PlaceLines([Box(limit)], r.value, [line][1..], product) == r; }
  }

  /** Up to one unit goes into one carton. */
  lemma AtMostOneCarton(limit: real, line: Line, product: string -> Unit)
    requires limit > 0.0 && product(line.item).volume > 0.0 && line.quantity <= 1.0
    requires Plan([Box(limit)], [line], product).Success?
    ensures |Plan([Box(limit)], [line], product).value| <= 1
  {
    PlanOfOne(limit, line, product);
    if line.quantity > 0.0 {
      var u := product(line.item);
      var step := PlaceSome([Box(limit)], [], line.item, line.quantity, u);
      assert step.Success? && step.value.1 == line.quantity && |step.value.0| == 1;
      assert PlaceLine([Box(limit)], step.value.0, line.item, 0.0, u) == Success(step.value.0);
    }
  }

  /** A box that holds one unit but not two, with one of them in it. */
  function Single(limit: real, item: string, k: real, u: Unit): Carton {
    Put(EmptyCarton(Box(limit)), Portion(item, k, u))
  }

  function Singles(limit: real, item: string, quantity: real, u: Unit): seq<Carton>
    decreases Turns(quantity)
  {
    if quantity <= 0.0 then []
    else [Single(limit, item, Min(quantity, 1.0), u)] + Singles(limit, item, quantity - Min(quantity, 1.0), u)
  }

  lemma SingleIs(limit: real, item: string, k: real, u: Unit)
    ensures var c := Single(limit, item, k, u);
        && c.roomWeight == None
        && c.roomVolume == Less(Limit(limit), Scaled(k, u.volume))
        && Sum(c.rows, VolumeOf()) == Scaled(k, u.volume)
  {
    var p, rows := Portion(item, k, u), Single(limit, item, k, u).rows;
    assert p.volume == Scaled(k, u.volume);
    assert rows == [p];
    assert Sum(rows[..0], VolumeOf()) == 0.0;
  }

  lemma FitsOnce(limit: real, u: Unit)
    requires 0.0 < u.volume <= limit < 2.0 * u.volume
    ensures FitEmpty(Box(limit), u) == 1
  {
    QuotientFloor(limit, u.volume, 1.0);
    QuotientFloor(limit, u.volume, 2.0);
  }

  lemma FullRefuses(limit: real, item: string, u: Unit)
    requires 0.0 < u.volume <= limit < 2.0 * u.volume
    ensures FitInto(Single(limit, item, 1.0, u), u) < 1
  {
    SingleIs(limit, item, 1.0, u);
    assert Scaled(1.0, u.volume) == u.volume;
    QuotientFloor(limit - u.volume, u.volume, 1.0);
  }

  /** Boxes for one unit are filled one unit each. */
  lemma {:induction false} OneEach(limit: real, cartons: seq<Carton>, item: string, quantity: real, u: Unit)
    requires 0.0 < u.volume <= limit < 2.0 * u.volume
    requires quantity > 0.0 ==> forall i :: 0 <= i < |cartons| ==> FitInto(cartons[i], u) < 1
    ensures PlaceLine([Box(limit)], cartons, item, quantity, u) == Success(cartons + Singles(limit, item, quantity, u))
    decreases Turns(quantity)
  {
    if quantity <= 0.0 {
      assert cartons + [] == cartons;
    } else {
      var types, k := [Box(limit)], Min(quantity, 1.0);
      var last := Single(limit, item, k, u);
      FitsOnce(limit, u);
      assert FirstWithRoom(cartons, u) == |cartons|;
      assert types[0] in types;
      assert OpenCarton(types, item, quantity, u) == Success(EmptyCarton(Box(limit)));
      assert PlaceSome(types, cartons, item, quantity, u) == Success((cartons + [last], k));
      if quantity > 1.0 { FullRefuses(limit, item, u); }
      OneEach(limit, cartons + [last], item, quantity - k, u);
      assert cartons + ([last] + Singles(limit, item, quantity - k, u)) ==
          (cartons + [last]) + Singles(limit, item, quantity - k, u);
    }
  }

  /** The first box holds a unit, and the last one what is left over a whole number of them. */
  lemma {:induction false} LastSingle(limit: real, item: string, quantity: real, u: Unit)
    requires quantity > 0.0 && !IsWhole(quantity)
    ensures var cs := Singles(limit, item, quantity, u);
      |cs| > 0 && cs[|cs| - 1] == Single(limit, item, quantity - quantity.Floor as real, u) &&
          (quantity > 1.0 ==> |cs| > 1 && cs[0] == Single(limit, item, 1.0, u))
    decreases Turns(quantity)
  {
    if quantity > 1.0 {
      assert (quantity - 1.0).Floor == quantity.Floor - 1;
      LastSingle(limit, item, quantity - 1.0, u);
    } else {
      assert Singles(limit, item, 0.0, u) == [];
      assert quantity.Floor == 0;
    }
  }

  /** Some box wastes room on a line exactly when the line asks for more than one unit and not for a whole number of
      them. */
  lemma FractionsWasteExactly(line: Line, product: string -> Unit)
    requires Physical(product) && product(line.item).volume > 0.0
    ensures (exists limit :: Wastes(limit, line, product)) <==> line.quantity > 1.0 && !IsWhole(line.quantity)
  {
    if limit :| Wastes(limit, line, product) {
      var cartons := Plan([Box(limit)], [line], product).value;
      var i, j :| 0 <= i < j < |cartons| &&
          Sum(cartons[i].rows, VolumeOf()) + Sum(cartons[j].rows, VolumeOf()) <= limit;
      if line.quantity <= 1.0 { AtMostOneCarton(limit, line, product); }
      if IsWhole(line.quantity) {
        WholeQuantitiesFillCartons([Box(limit)], [line], product, j);
        TwoCartonsExceedOne([Box(limit)], [line], product, limit, i, j);
      }
    }
    if line.quantity > 1.0 && !IsWhole(line.quantity) { FractionWastes(line, product); }
  }

  lemma FractionWastes(line: Line, product: string -> Unit)
    requires product(line.item).volume > 0.0 && line.quantity > 1.0 && !IsWhole(line.quantity)
    ensures exists limit :: Wastes(limit, line, product)
  {
    var u, part := product(line.item), line.quantity - line.quantity.Floor as real;
    var limit := u.volume + Scaled(part, u.volume);
    PartOf(part, u.volume);
    assert Scaled(1.0, u.volume) == u.volume;
    PlanOfOne(limit, line, product);
    OneEach(limit, [], line.item, line.quantity, u);
    var cartons := Singles(limit, line.item, line.quantity, u);
    assert [] + cartons == cartons;
    LastSingle(limit, line.item, line.quantity, u);
    SingleIs(limit, line.item, 1.0, u);
    SingleIs(limit, line.item, part, u);
    WastesAt(limit, line, product, cartons);
  }

  lemma WastesAt(limit: real, line: Line, product: string -> Unit, cartons: seq<Carton>)
    requires limit > 0.0 && Plan([Box(limit)], [line], product) == Success(cartons) && |cartons| > 1
    requires Sum(cartons[0].rows, VolumeOf()) + Sum(cartons[|cartons| - 1].rows, VolumeOf()) <= limit
    ensures Wastes(limit, line, product)
  {
  }

  lemma PartOf(part: real, v: real)
    requires 0.0 < part < 1.0 && v > 0.0
    ensures 0.0 < Scaled(part, v) < v
  {
    AddsUp(1.0 - part, part, v);
  }
}
