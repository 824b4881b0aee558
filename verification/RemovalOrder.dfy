/** The order of removal field by field, for every strategy. */
module RemovalOrder {
  import opened Basics
  import opened Sorting
  import opened RemovalRules

  // ---------------------------------------------------------------- comparing fields

  lemma FirstCharacter(a: string, b: string)
    requires |a| > 0 && |b| > 0 && NameBefore(a, b)
    ensures a[0] <= b[0]
  {
    var i :| 0 <= i <= |a| && i < |b| && a[..i] == b[..i] && (i == |a| || a[i] < b[i]);
    if i > 0 { assert a[0] == a[..i][0] && b[0] == b[..i][0]; }
  }

  /** The first character in which the names differ decides; the beginning of a name comes before it. */
  ghost predicate NameBefore(a: string, b: string) {
    exists i :: 0 <= i <= |a| && i < |b| && a[..i] == b[..i] && (i == |a| || a[i] < b[i])
  }

  lemma {:induction false} TextLeIs(a: string, b: string)
    ensures TextLe(a, b) <==> a == b || NameBefore(a, b)
    decreases |a|
  {
    if |a| == 0 {
      if |b| > 0 { assert a[..0] == b[..0] && NameBefore(a, b); }
    } else if |b| > 0 {
      TextLeIs(a[1..], b[1..]);
      if a[0] == b[0] {
        SameFirst(a, b);
        assert a == b <==> a[1..] == b[1..] by {
          assert a == [a[0]] + a[1..] && b == [b[0]] + b[1..];
        }
      } else if a[0] < b[0] {
        assert a[..0] == b[..0] && NameBefore(a, b);
      } else if NameBefore(a, b) {
        FirstCharacter(a, b);
      }
    }
  }

  lemma SameFirst(a: string, b: string)
    requires |a| > 0 && |b| > 0 && a[0] == b[0]
    ensures NameBefore(a, b) <==> NameBefore(a[1..], b[1..])
  {
    if NameBefore(a, b) {
      var i :| 0 <= i <= |a| && i < |b| && a[..i] == b[..i] && (i == |a| || a[i] < b[i]);
      assert i > 0;
      var k := i - 1;
      assert a[1..][..k] == a[..i][1..] && b[1..][..k] == b[..i][1..];
    }
    if NameBefore(a[1..], b[1..]) {
      var k :| 0 <= k <= |a[1..]| && k < |b[1..]| && a[1..][..k] == b[1..][..k] &&
          (k == |a[1..]| || a[1..][k] < b[1..][k]);
      var i := k + 1;
      assert a[..i] == [a[0]] + a[1..][..k] && b[..i] == [b[0]] + b[1..][..k];
    }
  }

  predicate EarlierOrNone(a: Option<int>, b: Option<int>) {
    b.Some? && (a.None? || a.value < b.value)
  }

  predicate EarlierOrSome(a: Option<int>, b: Option<int>) {
    a.Some? && (b.None? || a.value < b.value)
  }

  /** A balance without a receipt date first, then the earlier one; the name decides among equals. */
  ghost predicate ReceivedBefore(a: Candidate, b: Candidate) {
    if a.firstReceipt != b.firstReceipt then EarlierOrNone(a.firstReceipt, b.firstReceipt)
    else NameBefore(a.name, b.name)
  }

  lemma FifoIs(a: Candidate, b: Candidate)
    ensures Lex(ByReceipt(), ByName())(a, b) <==>
        ReceivedBefore(a, b) || (a.firstReceipt == b.firstReceipt && a.name == b.name)
  {
    TextLeIs(a.name, b.name);
  }

  /** Own reserved stock, the storage type's place in the sequence, the earlier expiry with the undated last, the
      earlier receipt, the name: the first that differs decides. */
  ghost predicate DrawnBefore(setup: Setup, binsMatter: bool, a: Candidate, b: Candidate) {
    if a.special != b.special then a.special
    else if binsMatter && setup.rank.Some? && PlaceOf(setup, a) != PlaceOf(setup, b)
    then PlaceOf(setup, a) < PlaceOf(setup, b)
    else if a.expiry != b.expiry then EarlierOrSome(a.expiry, b.expiry)
    else ReceivedBefore(a, b)
  }

  function PlaceOf(setup: Setup, c: Candidate): int
    requires setup.rank.Some?
  {
    if c.bin in setup.types && setup.types[c.bin] in setup.rank.value then setup.rank.value[setup.types[c.bin]] else 0
  }

  lemma FullOrderIs(setup: Setup, binsMatter: bool, a: Candidate, b: Candidate)
    requires a.name != b.name
    ensures FullOrder(setup, binsMatter)(a, b) <==> DrawnBefore(setup, binsMatter, a, b)
  {
    FifoIs(a, b);
    TextLeIs(a.name, b.name);
    TextLeIs(b.name, a.name);
  }

  // ---------------------------------------------------------------- what may be drawn on

  /** Fresh enough, and in no unit that is blocked. */
  predicate MayUse(setup: Setup, c: Candidate) {
    && (setup.minimumExpiry.Some? && c.expiry.Some? ==> setup.minimumExpiry.value <= c.expiry.value)
    && (c.unit != "" ==> c.unit !in setup.blockedUnits)
  }

  ghost predicate SomeInBin(setup: Setup, cs: seq<Candidate>) { exists c <- cs :: MayUse(setup, c) && c.bin != "" }

  /** Once some usable balance is in a bin: in none that is blocked, and in a storage type of the sequence. */
  ghost predicate MayDraw(setup: Setup, cs: seq<Candidate>, c: Candidate) {
    && MayUse(setup, c)
    && (SomeInBin(setup, cs) && c.bin != "" ==> c.bin !in setup.blockedBins)
    && (SomeInBin(setup, cs) && setup.rank.Some? ==>
        c.bin in setup.types && setup.types[c.bin] in setup.rank.value)
  }

  lemma EligibleIs(setup: Setup, cs: seq<Candidate>, c: Candidate)
    ensures BinsMatter(setup, cs) <==> SomeInBin(setup, cs)
    ensures Eligible(setup, cs, c) <==> MayDraw(setup, cs, c)
  {
    forall x: Candidate ensures Usable(setup, x) <==> MayUse(setup, x) {}
    if SomeInBin(setup, cs) {
      var x :| x in cs && MayUse(setup, x) && x.bin != "";
      var i :| 0 <= i < |cs| && cs[i] == x;
      assert Usable(setup, cs[i]);
    }
  }

  ghost predicate AllOrNoneDated(cs: seq<Candidate>) {
    (forall c <- cs :: c.firstReceipt.Some?) || (forall c <- cs :: c.firstReceipt.None?)
  }

  lemma MixedIs(cs: seq<Candidate>)
    ensures Mixed(cs) <==> !AllOrNoneDated(cs)
  {
    if !AllOrNoneDated(cs) {
      var undated, dated :| undated in cs && dated in cs && undated.firstReceipt.None? && dated.firstReceipt.Some?;
      var i :| 0 <= i < |cs| && cs[i] == undated;
      var j :| 0 <= j < |cs| && cs[j] == dated;
    }
  }

  /** First expired, first out draws on exactly the balances that may be drawn on, one before another if and only if the
      first field that differs says so. */
  lemma DrawOrderFieldByField(setup: Setup, cs: seq<Candidate>, i: nat, j: nat)
    requires AllOrNoneDated(cs) && DistinctNames(cs)
    ensures DrawOrder(setup, Fefo, cs).Some?
    ensures forall c :: c in DrawOrder(setup, Fefo, cs).value <==> c in cs && MayDraw(setup, cs, c)
    ensures var list := DrawOrder(setup, Fefo, cs).value;
      i < |list| && j < |list| && i != j ==>
        (i < j <==> DrawnBefore(setup, SomeInBin(setup, cs), list[i], list[j]))
  {
    MixedIs(cs);
    var list := DrawOrder(setup, Fefo, cs).value;
    DrawOrderIsLexicographic(setup, cs);
    forall c ensures Eligible(setup, cs, c) <==> MayDraw(setup, cs, c) { EligibleIs(setup, cs, c); }
    if i < |list| && j < |list| && i != j {
      EligibleIs(setup, cs, list[i]);
      DrawOrderIsWithin(setup, cs);
      WithinKeepsNames(list, cs);
      FullOrderIs(setup, SomeInBin(setup, cs), list[i], list[j]);
      FullOrderIs(setup, SomeInBin(setup, cs), list[j], list[i]);
      assert list[i].name != list[j].name;
      if j < i && FullOrder(setup, SomeInBin(setup, cs))(list[i], list[j]) {
        FullOrderDecides(setup, SomeInBin(setup, cs), list[i], list[j]);
      }
    }
  }

  // ---------------------------------------------------------------- the strategies

  /** The same balances, and no two of them the wrong way round. */
  ghost predicate IsSorted(cs: seq<Candidate>, list: seq<Candidate>, before: (Candidate, Candidate) -> bool) {
    multiset(list) == multiset(cs) && forall i, j :: 0 <= i < j < |list| ==> !before(list[j], list[i])
  }

  /** Balances that tie keep the order they came in. */
  ghost predicate KeepsTies(cs: seq<Candidate>, list: seq<Candidate>, before: (Candidate, Candidate) -> bool) {
    forall x: Candidate :: SameTies(cs, list, before, x)
  }

  ghost function Tie(before: (Candidate, Candidate) -> bool, x: Candidate): Candidate -> bool {
    (c: Candidate) => !before(c, x) && !before(x, c)
  }

  ghost predicate SameTies(cs: seq<Candidate>, list: seq<Candidate>, before: (Candidate, Candidate) -> bool,
        x: Candidate)
  {
    Filter(list, Tie(before, x)) == Filter(cs, Tie(before, x))
  }

  lemma SortIs(cs: seq<Candidate>, le: Ordering, before: (Candidate, Candidate) -> bool)
    requires Preorder(le) && forall a, b :: le(a, b) <==> !before(b, a)
    ensures IsSorted(cs, SortBy(cs, le), before) && KeepsTies(cs, SortBy(cs, le), before)
  {
    SortPermutes(cs, le);
    SortSorts(cs, le);
    forall x: Candidate ensures SameTies(cs, SortBy(cs, le), before, x) {
      SortIsStable(cs, le, x);
      FilterBoth(cs, Anyone(), TiesWith(le, x), Tie(before, x));
      FilterBoth(SortBy(cs, le), Anyone(), TiesWith(le, x), Tie(before, x));
      FilterAnyone(cs);
      FilterAnyone(SortBy(cs, le));
    }
  }

  function Anyone(): Candidate -> bool { (c: Candidate) => true }

  lemma {:induction false} FilterAnyone(cs: seq<Candidate>)
    ensures Filter(cs, Anyone()) == cs
  {
    if |cs| != 0 { FilterAnyone(cs[1..]); }
  }

  ghost function FirstIn(): (Candidate, Candidate) -> bool { (a: Candidate, b: Candidate) => ReceivedBefore(a, b) }

  ghost function LastIn(): (Candidate, Candidate) -> bool { (a: Candidate, b: Candidate) => ReceivedBefore(b, a) }

  ghost function Smaller(): (Candidate, Candidate) -> bool { (a: Candidate, b: Candidate) => a.quantity < b.quantity }

  ghost function Larger(): (Candidate, Candidate) -> bool { (a: Candidate, b: Candidate) => a.quantity > b.quantity }

  lemma NameOrder(a: string, b: string)
    ensures NameBefore(a, b) <==> !TextLe(b, a)
  {
    TextLeIs(a, b);
    TextLeIs(b, a);
    TextTotal(a, b);
    if TextLe(a, b) && TextLe(b, a) { TextAntisymmetric(a, b); }
    NotBeforeItself(a);
  }

  lemma NotBeforeItself(a: string)
    ensures !NameBefore(a, a)
  {
  }

  lemma FifoBefore(a: Candidate, b: Candidate)
    ensures Lex(ByReceipt(), ByName())(a, b) <==> !ReceivedBefore(b, a)
  {
    NameOrder(b.name, a.name);
  }

  lemma FifoOrders()
    ensures Preorder(Lex(ByReceipt(), ByName())) && Preorder(Reversed(Lex(ByReceipt(), ByName())))
  {
    ReceiptsOrder();
    NamesOrder();
    LexIsPreorder(ByReceipt(), ByName());
  }

  lemma QuantitiesOrder()
    ensures Preorder(ByQuantity()) && Preorder(Reversed(ByQuantity()))
  {
  }

  /** The three strategies that look at receipts fail exactly when dated and undated receipts meet; first-in and last-in
      order by receipt and name, forwards or backwards. */
  lemma FifoAndLifoSort(cs: seq<Candidate>)
    ensures Apply(Fefo, cs).Some? <==> AllOrNoneDated(cs)
    ensures Apply(Fifo, cs).Some? <==> AllOrNoneDated(cs)
    ensures Apply(Lifo, cs).Some? <==> AllOrNoneDated(cs)
    ensures AllOrNoneDated(cs) ==> IsSorted(cs, Apply(Fifo, cs).value, FirstIn())
    ensures AllOrNoneDated(cs) ==> IsSorted(cs, Apply(Lifo, cs).value, LastIn())
  {
    MixedIs(cs);
    var fifo := Lex(ByReceipt(), ByName());
    FifoOrders();
    forall a, b ensures fifo(a, b) <==> !FirstIn()(b, a) { FifoBefore(a, b); }
    SortIs(cs, fifo, FirstIn());
    SortIs(cs, Reversed(fifo), LastIn());
  }

  /** The quantity strategies never fail and keep ties as they came. */
  lemma QuantitiesSort(cs: seq<Candidate>)
    ensures Apply(PartialFirst, cs).Some? && IsSorted(cs, Apply(PartialFirst, cs).value, Smaller())
    ensures KeepsTies(cs, Apply(PartialFirst, cs).value, Smaller())
    ensures Apply(LargestFirst, cs).Some? && IsSorted(cs, Apply(LargestFirst, cs).value, Larger())
    ensures KeepsTies(cs, Apply(LargestFirst, cs).value, Larger())
  {
    QuantitiesOrder();
    SortIs(cs, ByQuantity(), Smaller());
    SortIs(cs, Reversed(ByQuantity()), Larger());
  }

  function OfBin(bin: string): Candidate -> bool { (c: Candidate) => c.bin == bin }

  /** A fixed bin keeps what is in it, as it came, and fails without a name. */
  lemma FixedBinKeeps(cs: seq<Candidate>, bin: string)
    ensures Apply(FixedBin(bin), cs) == if bin == "" then None else Some(Filter(cs, OfBin(bin)))
  {
    FilterBoth(cs, Anyone(), InBin(bin), OfBin(bin));
    FilterAnyone(cs);
  }

  // ---------------------------------------------------------------- custom sorts

  /** By one field, missing values last, or the other way round. */
  predicate FieldBefore(f: SortField, a: Candidate, b: Candidate) {
    var x, y := if f.descending then b else a, if f.descending then a else b;
    f.field in x.fields && (f.field !in y.fields || x.fields[f.field] < y.fields[f.field])
  }

  predicate SameField(f: SortField, a: Candidate, b: Candidate) {
    (f.field in a.fields <==> f.field in b.fields) &&
        (f.field in a.fields ==> a.fields[f.field] == b.fields[f.field])
  }

  /** The first field in which they differ decides. */
  ghost predicate FieldsBefore(fields: seq<SortField>, a: Candidate, b: Candidate) {
    exists i :: 0 <= i < |fields| && FieldBefore(fields[i], a, b) &&
      forall j :: 0 <= j < i ==> SameField(fields[j], a, b)
  }

  lemma {:induction false} ByFieldsIs(fields: seq<SortField>, a: Candidate, b: Candidate)
    ensures ByFields(fields)(a, b) <==> !FieldsBefore(fields, b, a)
    decreases |fields|
  {
    if |fields| > 0 {
      var f := fields[0];
      ByFieldsIs(fields[1..], a, b);
      FieldsInTurn(fields, b, a);
      var le := if f.descending then Reversed(ByField(f.field)) else ByField(f.field);
      assert le(a, b) <==> !FieldBefore(f, b, a);
      assert le(b, a) <==> !FieldBefore(f, a, b);
    }
  }

  lemma FieldsInTurn(fields: seq<SortField>, a: Candidate, b: Candidate)
    requires |fields| > 0
    ensures FieldsBefore(fields, a, b) <==>
        FieldBefore(fields[0], a, b) || (SameField(fields[0], a, b) && FieldsBefore(fields[1..], a, b))
  {
    if FieldsBefore(fields, a, b) {
      var i :| 0 <= i < |fields| && FieldBefore(fields[i], a, b) &&
          forall j :: 0 <= j < i ==> SameField(fields[j], a, b);
      if i > 0 {
        var k := i - 1;
        assert fields[1..][k] == fields[i] && forall j :: 0 <= j < k ==> fields[1..][j] == fields[j + 1];
      }
    }
    if SameField(fields[0], a, b) && FieldsBefore(fields[1..], a, b) {
      var k :| 0 <= k < |fields[1..]| && FieldBefore(fields[1..][k], a, b) &&
          forall j :: 0 <= j < k ==> SameField(fields[1..][j], a, b);
      var i := k + 1;
      assert fields[i] == fields[1..][k];
      forall j | 0 <= j < i ensures SameField(fields[j], a, b) { if j > 0 { assert fields[j] == fields[1..][j - 1]; } }
    }
  }

  ghost function ByAll(fields: seq<SortField>): (Candidate, Candidate) -> bool {
    (a: Candidate, b: Candidate) => FieldsBefore(fields, a, b)
  }

  /** A custom sort orders by the first field that differs, each in its direction, and keeps ties as they came. */
  lemma CustomSortFieldByField(fields: seq<SortField>, cs: seq<Candidate>)
    ensures Apply(CustomSort(fields), cs).Some?
    ensures IsSorted(cs, Apply(CustomSort(fields), cs).value, ByAll(fields))
    ensures KeepsTies(cs, Apply(CustomSort(fields), cs).value, ByAll(fields))
  {
    CustomOrder(fields);
    forall a, b ensures ByFields(fields)(a, b) <==> !ByAll(fields)(b, a) { ByFieldsIs(fields, a, b); }
    SortIs(cs, ByFields(fields), ByAll(fields));
    if |fields| == 0 {
      forall x: Candidate ensures SameTies(cs, cs, ByAll(fields), x) {}
    }
  }

  // ---------------------------------------------------------------- drawing by any strategy

  /** Own reserved stock first, then the storage types in the order of the sequence. */
  predicate GroupBefore(setup: Setup, binsMatter: bool, a: Candidate, b: Candidate) {
    if a.special != b.special then a.special
    else binsMatter && setup.rank.Some? && PlaceOf(setup, a) < PlaceOf(setup, b)
  }

  ghost function Groups(setup: Setup, binsMatter: bool): (Candidate, Candidate) -> bool {
    (a: Candidate, b: Candidate) => GroupBefore(setup, binsMatter, a, b)
  }

  ghost function Drawable(setup: Setup, cs: seq<Candidate>): Candidate -> bool {
    (c: Candidate) => MayDraw(setup, cs, c)
  }

  /** What the strategy gives that may be drawn on, in groups, and within a group in the strategy's order. */
  ghost predicate DrawnInGroups(setup: Setup, ordered: seq<Candidate>, list: seq<Candidate>) {
    var before := Groups(setup, SomeInBin(setup, ordered));
    IsSorted(Filter(ordered, Drawable(setup, ordered)), list, before) &&
      KeepsTies(Filter(ordered, Drawable(setup, ordered)), list, before)
  }

  lemma UsableAgain(setup: Setup, ordered: seq<Candidate>)
    ensures Filter(Filter(ordered, FreshEnough(setup)), UnitAllows(setup)) == Filter(ordered, MayUseIn(setup))
    ensures AnyBin(Filter(ordered, MayUseIn(setup))) <==> SomeInBin(setup, ordered)
  {
    FilterBoth(ordered, FreshEnough(setup), UnitAllows(setup), MayUseIn(setup));
    FilterMembers(ordered, MayUseIn(setup));
    var usable := Filter(ordered, MayUseIn(setup));
    if AnyBin(usable) {
      var i :| 0 <= i < |usable| && usable[i].bin != "";
      assert usable[i] in usable;
    }
    if SomeInBin(setup, ordered) {
      var c :| c in ordered && MayUse(setup, c) && c.bin != "";
      assert c in usable;
      var i :| 0 <= i < |usable| && usable[i] == c;
    }
  }

  function MayUseIn(setup: Setup): Candidate -> bool { (c: Candidate) => MayUse(setup, c) }

  /** Two stable sorts one after the other, with a filter in between, are one by the combined order. */
  lemma SortsTwice(s: seq<Candidate>, inner: Ordering, keep: Candidate -> bool, outer: Ordering,
        before: (Candidate, Candidate) -> bool)
    requires Preorder(inner) && Preorder(outer)
    requires forall a, b :: Lex(outer, inner)(a, b) <==> !before(b, a)
    ensures var list := SortBy(Filter(SortBy(s, inner), keep), outer);
      IsSorted(Filter(s, keep), list, before) && KeepsTies(Filter(s, keep), list, before)
  {
    var mid := Filter(SortBy(s, inner), keep);
    var list := SortBy(mid, outer);
    SortSorts(s, inner);
    FilterSorted(SortBy(s, inner), keep, inner);
    SortRefines(mid, outer, inner);
    SortPermutes(s, inner);
    SortPermutes(mid, outer);
    FilterBag(SortBy(s, inner), s, keep);
    forall x: Candidate ensures SameTies(Filter(s, keep), list, before, x) {
      TiesTwice(s, inner, keep, outer, before, x);
    }
  }

  function And(f: Candidate -> bool, g: Candidate -> bool): Candidate -> bool { (c: Candidate) => f(c) && g(c) }

  lemma TiesTwice(s: seq<Candidate>, inner: Ordering, keep: Candidate -> bool, outer: Ordering,
        before: (Candidate, Candidate) -> bool, x: Candidate)
    requires Preorder(inner) && Preorder(outer)
    requires forall a, b :: Lex(outer, inner)(a, b) <==> !before(b, a)
    ensures SameTies(Filter(s, keep), SortBy(Filter(SortBy(s, inner), keep), outer), before, x)
  {
    var sorted, tie := SortBy(s, inner), Tie(before, x);
    var mid, both := Filter(sorted, keep), And(keep, tie);
    SortIsStable(mid, outer, x);
    SortIsStable(s, inner, x);
    TieIsBoth(inner, outer, before, x);
    FilterBoth(SortBy(mid, outer), TiesWith(outer, x), tie, tie);
    FilterBoth(mid, TiesWith(outer, x), tie, tie);
    FilterBoth(sorted, keep, tie, both);
    FilterBoth(sorted, TiesWith(inner, x), both, both);
    FilterBoth(s, TiesWith(inner, x), both, both);
    FilterBoth(s, keep, tie, both);
  }

  lemma TieIsBoth(inner: Ordering, outer: Ordering, before: (Candidate, Candidate) -> bool, x: Candidate)
    requires Preorder(inner) && Preorder(outer)
    requires forall a, b :: Lex(outer, inner)(a, b) <==> !before(b, a)
    ensures forall c :: Tie(before, x)(c) <==> TiesWith(inner, x)(c) && TiesWith(outer, x)(c)
  {
    forall c ensures Tie(before, x)(c) <==> TiesWith(inner, x)(c) && TiesWith(outer, x)(c) {
      assert Lex(outer, inner)(c, x) <==> !before(x, c);
      assert Lex(outer, inner)(x, c) <==> !before(c, x);
    }
  }

  lemma SequenceFilters(setup: Setup, ordered: seq<Candidate>)
    requires SomeInBin(setup, ordered) && setup.rank.Some?
    ensures var kept := Filter(Filter(ordered, MayUseIn(setup)), InSequence(setup.types, setup.rank.value));
        Filter(kept, BinAllows(setup)) == Filter(ordered, Drawable(setup, ordered))
  {
    var rank := setup.rank.value;
    var first := And(MayUseIn(setup), InSequence(setup.types, rank));
    FilterBoth(ordered, MayUseIn(setup), InSequence(setup.types, rank), first);
    FilterBoth(ordered, first, BinAllows(setup), Drawable(setup, ordered));
  }

  lemma GroupsAreLex(setup: Setup)
    requires setup.rank.Some?
    ensures forall a, b ::
        Lex(BySpecial(), ByRank(setup.types, setup.rank.value))(a, b) <==> !Groups(setup, true)(b, a)
  {
  }

  lemma DrawnBySequence(setup: Setup, ordered: seq<Candidate>)
    requires SomeInBin(setup, ordered) && setup.rank.Some?
    ensures var usable := Filter(ordered, MayUseIn(setup));
      DrawnInGroups(setup, ordered, SortBy(Filter(BySequence(setup, usable), BinAllows(setup)), BySpecial()))
  {
    var rank := setup.rank.value;
    SpecialsOrder();
    RanksOrder(setup.types, rank);
    GroupsAreLex(setup);
    SortsTwice(Filter(Filter(ordered, MayUseIn(setup)), InSequence(setup.types, rank)), ByRank(setup.types, rank),
        BinAllows(setup), BySpecial(), Groups(setup, true));
    SequenceFilters(setup, ordered);
  }

  lemma DrawnFromBins(setup: Setup, ordered: seq<Candidate>)
    requires SomeInBin(setup, ordered) && setup.rank.None?
    ensures var usable := Filter(ordered, MayUseIn(setup));
      DrawnInGroups(setup, ordered, SortBy(Filter(usable, BinAllows(setup)), BySpecial()))
  {
    SpecialsOrder();
    FilterBoth(ordered, MayUseIn(setup), BinAllows(setup), Drawable(setup, ordered));
    SortIs(Filter(Filter(ordered, MayUseIn(setup)), BinAllows(setup)), BySpecial(), Groups(setup, true));
  }

  lemma DrawnWithoutBins(setup: Setup, ordered: seq<Candidate>)
    requires !SomeInBin(setup, ordered)
    ensures DrawnInGroups(setup, ordered, SortBy(Filter(ordered, MayUseIn(setup)), BySpecial()))
  {
    SpecialsOrder();
    FilterBoth(ordered, Anyone(), MayUseIn(setup), Drawable(setup, ordered));
    FilterAnyone(ordered);
    SortIs(Filter(ordered, MayUseIn(setup)), BySpecial(), Groups(setup, false));
  }

  /** Whatever the strategy, exactly those of its balances are drawn on that may be, own reserved stock first, then by
      storage type, and otherwise in the order of the strategy. */
  lemma DrawOrderKeepsStrategy(setup: Setup, strategy: Strategy, cs: seq<Candidate>)
    ensures DrawOrder(setup, strategy, cs).Some? <==> Apply(strategy, cs).Some?
    ensures Apply(strategy, cs).Some? ==>
        DrawnInGroups(setup, Apply(strategy, cs).value, DrawOrder(setup, strategy, cs).value)
  {
    if Apply(strategy, cs).Some? {
      var ordered := Apply(strategy, cs).value;
      UsableAgain(setup, ordered);
      if !SomeInBin(setup, ordered) {
        DrawnWithoutBins(setup, ordered);
      } else if setup.rank.None? {
        DrawnFromBins(setup, ordered);
      } else {
        DrawnBySequence(setup, ordered);
      }
    }
  }
}
