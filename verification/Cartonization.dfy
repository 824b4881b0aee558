/** Cartonization: which shipping cartons a delivery needs, packed first-fit decreasing. */
module Cartonization {
  import opened Basics
  import opened Sums
  import opened Sorting

  /** A limit of 0 means unlimited. Packaging comes in the order of the query: volume, then weight. */
  datatype Packaging = Packaging(name: string, maximumWeight: real, maximumVolume: real)

  datatype Line = Line(item: string, quantity: real)

  /** Weight and volume of one unit, as the product master has them. */
  datatype Unit = Unit(weight: real, volume: real)

  datatype Row = Row(item: string, quantity: real, weight: real, volume: real)

  datatype Carton = Carton(packaging: Packaging, roomWeight: Option<real>, roomVolume: Option<real>, rows: seq<Row>)

  datatype Refusal = NoPackaging | Unmeasured(item: string) | DoesNotFit(item: string)

  const UNLIMITED_FIT := 1_000_000_000

  function Limit(maximum: real): Option<real> { if maximum == 0.0 then None else Some(maximum) }

  /** Whole units that fit into the remaining room. */
  function Fit(u: Unit, roomWeight: Option<real>, roomVolume: Option<real>): int {
    var byWeight := roomWeight.Some? && u.weight > 0.0;
    var byVolume := roomVolume.Some? && u.volume > 0.0;
    if byWeight && byVolume then Min(roomWeight.value / u.weight, roomVolume.value / u.volume).Floor
    else if byWeight then (roomWeight.value / u.weight).Floor
    else if byVolume then (roomVolume.value / u.volume).Floor
    else UNLIMITED_FIT
  }

  function FitInto(c: Carton, u: Unit): int { Fit(u, c.roomWeight, c.roomVolume) }

  function FitEmpty(p: Packaging, u: Unit): int { Fit(u, Limit(p.maximumWeight), Limit(p.maximumVolume)) }

  /** The smallest packaging holding what is left of the line, else the last one holding a unit at all. */
  function OpenCarton(types: seq<Packaging>, item: string, quantity: real, u: Unit): (r: Result<Carton, Refusal>)
    ensures r.Success? <==> exists t :: t in types && FitEmpty(t, u) >= 1
    ensures r.Success? ==> r.value.packaging in types && FitInto(r.value, u) >= 1
    ensures r.Success? ==> r.value == EmptyCarton(r.value.packaging)
    ensures r.Failure? ==> r.error == DoesNotFit(item)
  {
    var usable := Filter(types, (t: Packaging) => FitEmpty(t, u) >= 1);
    var whole := Filter(usable, (t: Packaging) => FitEmpty(t, u) as real >= quantity);
    FilterMembers(types, (t: Packaging) => FitEmpty(t, u) >= 1);
    FilterMembers(usable, (t: Packaging) => FitEmpty(t, u) as real >= quantity);
    if |usable| == 0 then Failure(DoesNotFit(item))
    else
      var t := if |whole| > 0 then whole[0] else usable[|usable| - 1];
      Success(EmptyCarton(t))
  }

  function EmptyCarton(p: Packaging): Carton { Carton(p, Limit(p.maximumWeight), Limit(p.maximumVolume), []) }

  /** Position of the item's row, or the number of rows. */
  function RowOf(rows: seq<Row>, item: string): (i: nat)
    ensures i <= |rows|
    ensures i < |rows| ==> rows[i].item == item
    ensures forall k :: 0 <= k < i ==> rows[k].item != item
  {
    if |rows| == 0 || rows[0].item == item then 0 else 1 + RowOf(rows[1..], item)
  }

  /** What placing `k` units of an item adds to a carton. */
  function Portion(item: string, k: real, u: Unit): Row { Row(item, k, k * u.weight, k * u.volume) }

  function AddRow(rows: seq<Row>, p: Row): seq<Row> {
    var i := RowOf(rows, p.item);
    if i < |rows| then rows[i := Row(p.item, rows[i].quantity + p.quantity, rows[i].weight + p.weight,
        rows[i].volume + p.volume)]
    else rows + [p]
  }

  function Less(room: Option<real>, used: real): Option<real> {
    if room.Some? then Some(room.value - used) else None
  }

  function Put(c: Carton, p: Row): Carton {
    c.(roomWeight := Less(c.roomWeight, p.weight), roomVolume := Less(c.roomVolume, p.volume),
        rows := AddRow(c.rows, p))
  }

  /** The first carton with room for a unit, or the number of cartons. */
  function FirstWithRoom(cartons: seq<Carton>, u: Unit): (j: nat)
    ensures j <= |cartons|
    ensures j < |cartons| ==> FitInto(cartons[j], u) >= 1
    ensures forall i :: 0 <= i < j ==> FitInto(cartons[i], u) < 1
  {
    if |cartons| == 0 || FitInto(cartons[0], u) >= 1 then 0 else 1 + FirstWithRoom(cartons[1..], u)
  }

  /** One turn of the placing loop: the cartons afterwards, and how much went in. */
  function PlaceSome(types: seq<Packaging>, cartons: seq<Carton>, item: string, quantity: real, u: Unit)
    : (r: Result<(seq<Carton>, real), Refusal>)
    requires quantity > 0.0
    ensures r.Success? ==> 0.0 < r.value.1 <= quantity && (r.value.1 == quantity || r.value.1 >= 1.0)
  {
    var j := FirstWithRoom(cartons, u);
    if j < |cartons| then
      var k := Min(quantity, FitInto(cartons[j], u) as real);
      Success((cartons[j := Put(cartons[j], Portion(item, k, u))], k))
    else
      match OpenCarton(types, item, quantity, u)
      case Failure(e) => Failure(e)
      case Success(c) =>
        var k := Min(quantity, FitInto(c, u) as real);
        Success((cartons + [Put(c, Portion(item, k, u))], k))
  }

  /** A bound on the turns a quantity still needs. */
  function Turns(quantity: real): nat {
    if quantity <= 0.0 then 0 else if quantity <= 1.0 then 1 else quantity.Floor + 1
  }

  function PlaceLine(types: seq<Packaging>, cartons: seq<Carton>, item: string, quantity: real,
        u: Unit): Result<seq<Carton>, Refusal>
    decreases Turns(quantity)
  {
    if quantity <= 0.0 then Success(cartons)
    else
      match PlaceSome(types, cartons, item, quantity, u)
      case Failure(e) => Failure(e)
      case Success(step) => PlaceLine(types, step.0, item, quantity - step.1, u)
  }

  function PlaceLines(types: seq<Packaging>, cartons: seq<Carton>, lines: seq<Line>,
        product: string -> Unit): Result<seq<Carton>, Refusal>
    decreases |lines|
  {
    if |lines| == 0 then Success(cartons)
    else
      match PlaceLine(types, cartons, lines[0].item, lines[0].quantity, product(lines[0].item))
      case Failure(e) => Failure(e)
      case Success(after) => PlaceLines(types, after, lines[1..], product)
  }

  /** sorted(key=(volume, weight), reverse=True) */
  function BulkyFirst(product: string -> Unit): (Line, Line) -> bool {
    (a: Line, b: Line) =>
      var x, y := product(a.item), product(b.item);
      x.volume > y.volume || (x.volume == y.volume && x.weight >= y.weight)
  }

  predicate IsMeasured(u: Unit) { u.weight > 0.0 || u.volume > 0.0 }

  function FirstUnmeasured(lines: seq<Line>, product: string -> Unit): (i: nat)
    ensures i <= |lines|
    ensures i < |lines| ==> !IsMeasured(product(lines[i].item))
    ensures forall k :: 0 <= k < i ==> IsMeasured(product(lines[k].item))
  {
    if |lines| == 0 || !IsMeasured(product(lines[0].item)) then 0 else 1 + FirstUnmeasured(lines[1..], product)
  }

  function Plan(types: seq<Packaging>, lines: seq<Line>, product: string -> Unit): Result<seq<Carton>, Refusal> {
    var i := FirstUnmeasured(lines, product);
    if |types| == 0 then Failure(NoPackaging)
    else if i < |lines| then Failure(Unmeasured(lines[i].item))
    else PlaceLines(types, [], SortBy(lines, BulkyFirst(product)), product)
  }

  /** The planning loops: lines outside, placing turns inside, a first-fit scan innermost. */
  method PlanCartons(types: seq<Packaging>, lines: seq<Line>,
        product: string -> Unit) returns (r: Result<seq<Carton>, Refusal>)
    ensures r == Plan(types, lines, product)
  {
    if |types| == 0 { return Failure(NoPackaging); }
    for i := 0 to |lines|
      invariant forall k :: 0 <= k < i ==> IsMeasured(product(lines[k].item))
    {
      if !IsMeasured(product(lines[i].item)) {
        return Failure(Unmeasured(lines[i].item));
      }
    }
    var sorted := SortBy(lines, BulkyFirst(product));
    var cartons: seq<Carton> := [];
    for n := 0 to |sorted|
      invariant Plan(types, lines, product) == PlaceLines(types, cartons, sorted[n..], product)
    {
      assert sorted[n..][0] == sorted[n] && sorted[n..][1..] == sorted[n + 1..];
      var placed := PlaceLineInCartons(types, cartons, sorted[n].item, sorted[n].quantity, product(sorted[n].item));
      if placed.Failure? { return placed; }
      cartons := placed.value;
    }
    return Success(cartons);
  }

  method PlaceLineInCartons(types: seq<Packaging>, before: seq<Carton>, item: string, ordered: real, u: Unit)
    returns (r: Result<seq<Carton>, Refusal>)
    ensures r == PlaceLine(types, before, item, ordered, u)
  {
    var cartons, quantity := before, ordered;
    while quantity > 0.0
      invariant PlaceLine(types, before, item, ordered, u) == PlaceLine(types, cartons, item, quantity, u)
      decreases Turns(quantity)
    {
      var step := PlaceSomeInCartons(types, cartons, item, quantity, u);
      if step.Failure? { return Failure(step.error); }
      cartons := step.value.0;
      quantity := quantity - step.value.1;
    }
    return Success(cartons);
  }

  method PlaceSomeInCartons(types: seq<Packaging>, cartons: seq<Carton>, item: string, quantity: real, u: Unit)
    returns (r: Result<(seq<Carton>, real), Refusal>)
    requires quantity > 0.0
    ensures r == PlaceSome(types, cartons, item, quantity, u)
  {
    var j := 0;
    while j < |cartons| && FitInto(cartons[j], u) < 1
      invariant 0 <= j <= |cartons|
      invariant forall i :: 0 <= i < j ==> FitInto(cartons[i], u) < 1
    {
      j := j + 1;
    }
    FirstWithRoomIs(cartons, u, j);
    if j == |cartons| {
      var carton := OpenCarton(types, item, quantity, u);
      if carton.Failure? { return Failure(carton.error); }
      var k := Min(quantity, FitInto(carton.value, u) as real);
      return Success((cartons + [Put(carton.value, Portion(item, k, u))], k));
    } else {
      var k := Min(quantity, FitInto(cartons[j], u) as real);
      return Success((cartons[j := Put(cartons[j], Portion(item, k, u))], k));
    }
  }

  lemma FirstWithRoomIs(cartons: seq<Carton>, u: Unit, j: nat)
    requires j <= |cartons|
    requires j < |cartons| ==> FitInto(cartons[j], u) >= 1
    requires forall i :: 0 <= i < j ==> FitInto(cartons[i], u) < 1
    ensures FirstWithRoom(cartons, u) == j
  {
  }
}
