/** Which balances an allocation may draw on, and in which order. */
module RemovalRules {
  import opened Basics
  import opened Sorting

  /** `special`: stock reserved for the delivery's own order. `fields` holds what a custom sort may look at. */
  datatype Candidate = Candidate(name: string, firstReceipt: Option<int>, expiry: Option<int>, bin: string,
      unit: string, special: bool, quantity: real, fields: map<string, int>)

  // ---------------------------------------------------------------- orders

  predicate TextLe(a: string, b: string) {
    if |a| == 0 then true else if |b| == 0 then false else a[0] < b[0] || (a[0] == b[0] && TextLe(a[1..], b[1..]))
  }

  lemma {:induction false} TextTotal(a: string, b: string)
    ensures TextLe(a, b) || TextLe(b, a)
    decreases |a|
  {
    if |a| != 0 && |b| != 0 { TextTotal(a[1..], b[1..]); }
  }

  lemma {:induction false} TextTransitive(a: string, b: string, c: string)
    requires TextLe(a, b) && TextLe(b, c)
    ensures TextLe(a, c)
    decreases |a|
  {
    if |a| != 0 && a[0] == b[0] == c[0] { TextTransitive(a[1..], b[1..], c[1..]); }
  }

  lemma {:induction false} TextAntisymmetric(a: string, b: string)
    requires TextLe(a, b) && TextLe(b, a)
    ensures a == b
    decreases |a|
  {
    if |a| != 0 {
      TextAntisymmetric(a[1..], b[1..]);
      assert a == [a[0]] + a[1..] && b == [b[0]] + b[1..];
    }
  }

  type Ordering = (Candidate, Candidate) -> bool

  function ByName(): Ordering { (a: Candidate, b: Candidate) => TextLe(a.name, b.name) }

  predicate NoneFirst(a: Option<int>, b: Option<int>) { a.None? || (b.Some? && a.value <= b.value) }

  function ByReceipt(): Ordering { (a: Candidate, b: Candidate) => NoneFirst(a.firstReceipt, b.firstReceipt) }

  predicate NoneLast(a: Option<int>, b: Option<int>) { b.None? || (a.Some? && a.value <= b.value) }

  /** Dated before undated, the earlier date first. */
  function ByExpiry(): Ordering { (a: Candidate, b: Candidate) => NoneLast(a.expiry, b.expiry) }

  function BySpecial(): Ordering { (a: Candidate, b: Candidate) => a.special || !b.special }

  function ByRank(types: map<string, string>, rank: map<string, int>): Ordering {
    (a: Candidate, b: Candidate) => RankOf(a, types, rank) <= RankOf(b, types, rank)
  }

  function RankOf(c: Candidate, types: map<string, string>, rank: map<string, int>): int {
    if c.bin in types && types[c.bin] in rank then rank[types[c.bin]] else 0
  }

  function ByQuantity(): Ordering { (a: Candidate, b: Candidate) => a.quantity <= b.quantity }

  function Reversed(le: Ordering): Ordering { (a: Candidate, b: Candidate) => le(b, a) }

  /** A field's values in order, missing ones last. */
  function ByField(field: string): Ordering {
    (a: Candidate, b: Candidate) => field !in b.fields || (field in a.fields && a.fields[field] <= b.fields[field])
  }

  datatype SortField = SortField(field: string, descending: bool)

  function ByFields(fields: seq<SortField>): Ordering
    decreases |fields|
  {
    if |fields| == 0 then Anything()
    else Lex(if fields[0].descending then Reversed(ByField(fields[0].field))
        else ByField(fields[0].field), ByFields(fields[1..]))
  }

  // ---------------------------------------------------------------- strategies

  datatype Strategy =
    | Fefo
    | Fifo
    | Lifo
    | PartialFirst
    | LargestFirst
    | FixedBin(bin: string)
    | CustomSort(fields: seq<SortField>)

  /** Dates and missing dates cannot be compared. */
  predicate Mixed(cs: seq<Candidate>) {
    exists i, j :: 0 <= i < |cs| && 0 <= j < |cs| && cs[i].firstReceipt.None? && cs[j].firstReceipt.Some?
  }

  function InBin(bin: string): Candidate -> bool { (c: Candidate) => c.bin == bin }

  function SortFifo(cs: seq<Candidate>): Option<seq<Candidate>> {
    if Mixed(cs) then None else Some(SortBy(cs, Lex(ByReceipt(), ByName())))
  }

  /** Sorted by expiry on top of first-in first-out. */
  function SortFefo(cs: seq<Candidate>): Option<seq<Candidate>> {
    match SortFifo(cs) case None => None case Some(base) => Some(SortBy(base, ByExpiry()))
  }

  function Apply(strategy: Strategy, cs: seq<Candidate>): Option<seq<Candidate>> {
    match strategy
    case Fefo => SortFefo(cs)
    case Fifo => SortFifo(cs)
    case Lifo => if Mixed(cs) then None else Some(SortBy(cs, Reversed(Lex(ByReceipt(), ByName()))))
    case PartialFirst => Some(SortBy(cs, ByQuantity()))
    case LargestFirst => Some(SortBy(cs, Reversed(ByQuantity())))
    case FixedBin(bin) => if bin == "" then None else Some(Filter(cs, InBin(bin)))
    case CustomSort(fields) => Some(if |fields| == 0 then cs else SortBy(cs, ByFields(fields)))
  }

  // ---------------------------------------------------------------- candidates

  /** `rank` is the removal sequence of the storage types, if the product has one. */
  datatype Setup = Setup(minimumExpiry: Option<int>, blockedUnits: set<string>, types: map<string, string>,
      rank: Option<map<string, int>>, blockedBins: set<string>)

  function FreshEnough(setup: Setup): Candidate -> bool {
    (c: Candidate) => setup.minimumExpiry.None? || c.expiry.None? || c.expiry.value >= setup.minimumExpiry.value
  }

  function UnitAllows(setup: Setup): Candidate -> bool {
    (c: Candidate) => c.unit == "" || c.unit !in setup.blockedUnits
  }

  function BinAllows(setup: Setup): Candidate -> bool { (c: Candidate) => c.bin == "" || c.bin !in setup.blockedBins }

  function InSequence(types: map<string, string>, rank: map<string, int>): Candidate -> bool {
    (c: Candidate) => c.bin in types && types[c.bin] in rank
  }

  function BySequence(setup: Setup, cs: seq<Candidate>): seq<Candidate> {
    match setup.rank
    case None => cs
    case Some(rank) => SortBy(Filter(cs, InSequence(setup.types, rank)), ByRank(setup.types, rank))
  }

  predicate AnyBin(cs: seq<Candidate>) { exists i :: 0 <= i < |cs| && cs[i].bin != "" }

  /** Without a single bin among them the candidates skip the removal sequence and the bin checks. */
  function Candidates(setup: Setup, strategy: Strategy, cs: seq<Candidate>): Option<seq<Candidate>> {
    match Apply(strategy, cs)
    case None => None
    case Some(ordered) =>
      var usable := Filter(Filter(ordered, FreshEnough(setup)), UnitAllows(setup));
      Some(if !AnyBin(usable) then usable else Filter(BySequence(setup, usable), BinAllows(setup)))
  }

  /** The order in which an allocation goes through them: the order's own reserved stock first. */
  function DrawOrder(setup: Setup, strategy: Strategy, cs: seq<Candidate>): Option<seq<Candidate>> {
    match Candidates(setup, strategy, cs) case None => None case Some(list) => Some(SortBy(list, BySpecial()))
  }

  // ---------------------------------------------------------------- proofs

  lemma NamesOrder()
    ensures Preorder(ByName())
  {
    forall a: Candidate, b: Candidate ensures ByName()(a, b) || ByName()(b, a) { TextTotal(a.name, b.name); }
    forall a: Candidate, b: Candidate, c: Candidate | ByName()(a, b) && ByName()(b, c)
      ensures ByName()(a, c)
    {
      TextTransitive(a.name, b.name, c.name);
    }
  }

  lemma ReceiptsOrder()
    ensures Preorder(ByReceipt())
  {
    forall a: Candidate, b: Candidate
      ensures ByReceipt()(a, b) || ByReceipt()(b, a)
    {
      DatesOrder(a.firstReceipt, b.firstReceipt);
    }
    forall a: Candidate, b: Candidate, c: Candidate | ByReceipt()(a, b) && ByReceipt()(b, c)
      ensures ByReceipt()(a, c)
    {
    }
  }

  lemma DatesOrder(a: Option<int>, b: Option<int>)
    ensures NoneFirst(a, b) || NoneFirst(b, a)
    ensures NoneLast(a, b) || NoneLast(b, a)
  {
    if a.Some? && b.Some? { assert a.value <= b.value || b.value <= a.value; }
  }

  lemma ExpiriesOrder()
    ensures Preorder(ByExpiry())
  {
    forall a: Candidate, b: Candidate ensures ByExpiry()(a, b) || ByExpiry()(b, a) { DatesOrder(a.expiry, b.expiry); }
    forall a: Candidate, b: Candidate, c: Candidate | ByExpiry()(a, b) && ByExpiry()(b, c) ensures ByExpiry()(a, c) {}
  }

  lemma SpecialsOrder()
    ensures Preorder(BySpecial())
  {
  }

  lemma RanksOrder(types: map<string, string>, rank: map<string, int>)
    ensures Preorder(ByRank(types, rank))
  {
  }

  lemma FieldsOrder(field: string)
    ensures Preorder(ByField(field)) && Preorder(Reversed(ByField(field)))
  {
  }

  lemma {:induction false} CustomOrder(fields: seq<SortField>)
    ensures Preorder(ByFields(fields))
    decreases |fields|
  {
    if |fields| != 0 {
      FieldsOrder(fields[0].field);
      CustomOrder(fields[1..]);
      LexIsPreorder(if fields[0].descending then Reversed(ByField(fields[0].field)) else ByField(fields[0].field),
          ByFields(fields[1..]));
    }
  }

  /** Lexicographic: expiry with the undated last, then first receipt, then name. */
  function FefoOrder(): Ordering { Lex(ByExpiry(), Lex(ByReceipt(), ByName())) }

  /** First expired, first out fails exactly when dated and undated receipts meet; otherwise it is the lexicographic
      order. */
  lemma FefoIsLexicographic(cs: seq<Candidate>)
    ensures SortFefo(cs).None? <==> Mixed(cs)
    ensures SortFefo(cs).Some? ==>
        multiset(SortFefo(cs).value) == multiset(cs) && Sorted(SortFefo(cs).value, FefoOrder())
  {
    var fifo := Lex(ByReceipt(), ByName());
    NamesOrder();
    ReceiptsOrder();
    ExpiriesOrder();
    LexIsPreorder(ByReceipt(), ByName());
    SortSorts(cs, fifo);
    SortPermutes(cs, fifo);
    SortRefines(SortBy(cs, fifo), ByExpiry(), fifo);
    SortPermutes(SortBy(cs, fifo), ByExpiry());
  }

  /** A custom sort is the lexicographic order of its fields, and keeps balances that tie in the order they came. */
  lemma CustomSortIsLexicographic(fields: seq<SortField>, cs: seq<Candidate>, x: Candidate)
    ensures var sorted := Apply(CustomSort(fields), cs).value;
      && multiset(sorted) == multiset(cs) && Sorted(sorted, ByFields(fields))
      && Filter(sorted, TiesWith(ByFields(fields), x)) == Filter(cs, TiesWith(ByFields(fields), x))
  {
    CustomOrder(fields);
    SortSorts(cs, ByFields(fields));
    SortPermutes(cs, ByFields(fields));
    SortIsStable(cs, ByFields(fields), x);
  }

  function TiesWith(le: Ordering, x: Candidate): Candidate -> bool { (c: Candidate) => le(c, x) && le(x, c) }

  lemma NotBothTie(le: Ordering, a: Candidate, b: Candidate, x: Candidate)
    requires Preorder(le) && !le(a, b)
    ensures !(TiesWith(le, x)(a) && TiesWith(le, x)(b))
  {
  }

  lemma FilterCons(c: Candidate, s: seq<Candidate>, keep: Candidate -> bool)
    ensures Filter([c] + s, keep) == (if keep(c) then [c] else []) + Filter(s, keep)
  {
    assert ([c] + s)[1..] == s;
  }

  lemma {:induction false} InsertIsStable(y: Candidate, s: seq<Candidate>, le: Ordering, x: Candidate)
    requires Preorder(le)
    ensures Filter(Insert(y, s, le), TiesWith(le, x)) ==
        (if TiesWith(le, x)(y) then [y] else []) + Filter(s, TiesWith(le, x))
  {
    var ties := TiesWith(le, x);
    if |s| == 0 || le(y, s[0]) {
      FilterCons(y, s, ties);
    } else {
      var h, rest := s[0], s[1..];
      InsertIsStable(y, rest, le, x);
      FilterCons(h, Insert(y, rest, le), ties);
      NotBothTie(le, y, h, x);
      if ties(h) { assert [h] + ([] + Filter(rest, ties)) == [] + ([h] + Filter(rest, ties)); }
    }
  }

  lemma {:induction false} SortIsStable(s: seq<Candidate>, le: Ordering, x: Candidate)
    requires Preorder(le)
    ensures Filter(SortBy(s, le), TiesWith(le, x)) == Filter(s, TiesWith(le, x))
  {
    if |s| != 0 {
      SortIsStable(s[1..], le, x);
      InsertIsStable(s[0], SortBy(s[1..], le), le, x);
    }
  }

  ghost predicate DistinctNames(cs: seq<Candidate>) {
    forall i, j :: 0 <= i < |cs| && 0 <= j < |cs| && cs[i].name == cs[j].name ==> i == j
  }

  /** What the balance itself, and its unit, must allow. */
  predicate Usable(setup: Setup, c: Candidate) { FreshEnough(setup)(c) && UnitAllows(setup)(c) }

  /** A usable balance that is in some bin: only then does the code look at bins at all. */
  predicate BinsMatter(setup: Setup, cs: seq<Candidate>) {
    exists i :: 0 <= i < |cs| && Usable(setup, cs[i]) && cs[i].bin != ""
  }

  predicate PlaceAllows(setup: Setup, c: Candidate) {
    BinAllows(setup)(c) && (setup.rank.Some? ==> InSequence(setup.types, setup.rank.value)(c))
  }

  /** What may be drawn on. */
  predicate Eligible(setup: Setup, cs: seq<Candidate>, c: Candidate) {
    Usable(setup, c) && (BinsMatter(setup, cs) ==> PlaceAllows(setup, c))
  }

  function InnerOrder(setup: Setup, binsMatter: bool): Ordering {
    if binsMatter && setup.rank.Some? then Lex(ByRank(setup.types, setup.rank.value), FefoOrder()) else FefoOrder()
  }

  /** Own reserved stock, storage type, expiry with the undated last, first receipt, name. */
  function FullOrder(setup: Setup, binsMatter: bool): Ordering { Lex(BySpecial(), InnerOrder(setup, binsMatter)) }

  lemma FullOrderDecides(setup: Setup, binsMatter: bool, a: Candidate, b: Candidate)
    requires FullOrder(setup, binsMatter)(a, b) && FullOrder(setup, binsMatter)(b, a)
    ensures a.name == b.name
  {
    TextAntisymmetric(a.name, b.name);
  }

  lemma SequenceKeepsOrder(setup: Setup, cs: seq<Candidate>)
    requires Sorted(cs, FefoOrder())
    ensures Sorted(BySequence(setup, cs), InnerOrder(setup, true))
    ensures forall c ::
        c in BySequence(setup, cs) <==> c in cs && (setup.rank.Some? ==> InSequence(setup.types, setup.rank.value)(c))
  {
    if setup.rank.Some? {
      var rank := setup.rank.value;
      var kept := Filter(cs, InSequence(setup.types, rank));
      FilterSorted(cs, InSequence(setup.types, rank), FefoOrder());
      FilterMembers(cs, InSequence(setup.types, rank));
      RanksOrder(setup.types, rank);
      SortRefines(kept, ByRank(setup.types, rank), FefoOrder());
      SameMembers(kept, ByRank(setup.types, rank));
    }
  }

  lemma SameMembers(s: seq<Candidate>, le: Ordering)
    ensures forall c :: c in SortBy(s, le) <==> c in s
  {
    SortPermutes(s, le);
    forall c ensures c in SortBy(s, le) <==> c in s { assert multiset(SortBy(s, le))[c] == multiset(s)[c]; }
  }

  function UsableOf(setup: Setup, cs: seq<Candidate>): seq<Candidate> {
    Filter(Filter(SortBy(SortBy(cs, Lex(ByReceipt(), ByName())), ByExpiry()), FreshEnough(setup)), UnitAllows(setup))
  }

  lemma UsableAre(setup: Setup, cs: seq<Candidate>)
    requires !Mixed(cs)
    ensures Sorted(UsableOf(setup, cs), FefoOrder())
    ensures forall c :: c in UsableOf(setup, cs) <==> c in cs && Usable(setup, c)
    ensures AnyBin(UsableOf(setup, cs)) <==> BinsMatter(setup, cs)
  {
    var ordered := SortFefo(cs).value;
    FefoIsLexicographic(cs);
    SameBags(ordered, cs);
    var young := Filter(ordered, FreshEnough(setup));
    FilterMembers(ordered, FreshEnough(setup));
    FilterSorted(ordered, FreshEnough(setup), FefoOrder());
    FilterMembers(young, UnitAllows(setup));
    FilterSorted(young, UnitAllows(setup), FefoOrder());
    var usable := UsableOf(setup, cs);
    if i :| 0 <= i < |usable| && usable[i].bin != "" {
      assert usable[i] in usable && usable[i] in cs;
      var j :| 0 <= j < |cs| && cs[j] == usable[i];
    }
    if i :| 0 <= i < |cs| && Usable(setup, cs[i]) && cs[i].bin != "" {
      assert cs[i] in cs && cs[i] in usable;
      var j :| 0 <= j < |usable| && usable[j] == cs[i];
    }
  }

  /** Exactly the eligible balances come out, in lexicographic order. */
  lemma DrawOrderIsLexicographic(setup: Setup, cs: seq<Candidate>)
    requires !Mixed(cs)
    ensures DrawOrder(setup, Fefo, cs).Some?
    ensures Sorted(DrawOrder(setup, Fefo, cs).value, FullOrder(setup, BinsMatter(setup, cs)))
    ensures forall c :: c in DrawOrder(setup, Fefo, cs).value <==> c in cs && Eligible(setup, cs, c)
  {
    FefoIsLexicographic(cs);
    UsableAre(setup, cs);
    PlacesOrdered(setup, UsableOf(setup, cs));
  }

  lemma PlacesOrdered(setup: Setup, usable: seq<Candidate>)
    requires Sorted(usable, FefoOrder())
    ensures var list := if !AnyBin(usable) then usable else Filter(BySequence(setup, usable), BinAllows(setup));
      && Sorted(SortBy(list, BySpecial()), FullOrder(setup, AnyBin(usable)))
      && forall c :: c in SortBy(list, BySpecial()) <==> c in usable && (AnyBin(usable) ==> PlaceAllows(setup, c))
  {
    SequenceKeepsOrder(setup, usable);
    SpecialsOrder();
    var list := if !AnyBin(usable) then usable else Filter(BySequence(setup, usable), BinAllows(setup));
    FilterSorted(BySequence(setup, usable), BinAllows(setup), InnerOrder(setup, true));
    FilterMembers(BySequence(setup, usable), BinAllows(setup));
    SortRefines(list, BySpecial(), InnerOrder(setup, AnyBin(usable)));
    SameMembers(list, BySpecial());
  }

  lemma FilterBag(a: seq<Candidate>, b: seq<Candidate>, keep: Candidate -> bool)
    requires multiset(a) == multiset(b)
    ensures multiset(Filter(a, keep)) == multiset(Filter(b, keep))
  {
    forall c: Candidate ensures multiset(Filter(a, keep))[c] == multiset(Filter(b, keep))[c] {
      FilterCounts(a, keep, c);
      FilterCounts(b, keep, c);
    }
  }

  lemma SameBags(a: seq<Candidate>, b: seq<Candidate>)
    requires multiset(a) == multiset(b)
    ensures forall c :: c in a <==> c in b
  {
    forall c ensures c in a <==> c in b { assert multiset(a)[c] == multiset(b)[c]; }
  }

  lemma SequenceBag(setup: Setup, a: seq<Candidate>, b: seq<Candidate>)
    requires multiset(a) == multiset(b)
    ensures multiset(BySequence(setup, a)) == multiset(BySequence(setup, b))
  {
    if setup.rank.Some? {
      var rank := setup.rank.value;
      FilterBag(a, b, InSequence(setup.types, rank));
      SortPermutes(Filter(a, InSequence(setup.types, rank)), ByRank(setup.types, rank));
      SortPermutes(Filter(b, InSequence(setup.types, rank)), ByRank(setup.types, rank));
    }
  }

  lemma AnyBinIsOfTheBag(a: seq<Candidate>, b: seq<Candidate>)
    requires multiset(a) == multiset(b)
    ensures AnyBin(a) ==> AnyBin(b)
  {
    if i :| 0 <= i < |a| && a[i].bin != "" {
      assert a[i] in multiset(a) && a[i] in b;
      var j :| 0 <= j < |b| && b[j] == a[i];
    }
  }

  lemma DrawBag(setup: Setup, a: seq<Candidate>, b: seq<Candidate>)
    requires multiset(a) == multiset(b) && !Mixed(a) && !Mixed(b)
    ensures multiset(DrawOrder(setup, Fefo, a).value) == multiset(DrawOrder(setup, Fefo, b).value)
  {
    FefoIsLexicographic(a);
    FefoIsLexicographic(b);
    var x, y := SortFefo(a).value, SortFefo(b).value;
    FilterBag(x, y, FreshEnough(setup));
    FilterBag(Filter(x, FreshEnough(setup)), Filter(y, FreshEnough(setup)), UnitAllows(setup));
    var u, v := UsableOf(setup, a), UsableOf(setup, b);
    AnyBinIsOfTheBag(u, v);
    AnyBinIsOfTheBag(v, u);
    SequenceBag(setup, u, v);
    FilterBag(BySequence(setup, u), BySequence(setup, v), BinAllows(setup));
    var l, m := Candidates(setup, Fefo, a).value, Candidates(setup, Fefo, b).value;
    SortPermutes(l, BySpecial());
    SortPermutes(m, BySpecial());
  }

  lemma BinsMatterOfTheBag(setup: Setup, a: seq<Candidate>, b: seq<Candidate>)
    requires multiset(a) == multiset(b) && BinsMatter(setup, a)
    ensures BinsMatter(setup, b)
  {
    var i :| 0 <= i < |a| && Usable(setup, a[i]) && a[i].bin != "";
    assert a[i] in multiset(a) && a[i] in b;
    var j :| 0 <= j < |b| && b[j] == a[i];
  }

  /** Whatever order the query lists them in, the allocation draws on them in one and the same order. */
  lemma DrawOrderIsUnique(setup: Setup, a: seq<Candidate>, b: seq<Candidate>)
    requires multiset(a) == multiset(b) && !Mixed(a) && !Mixed(b) && DistinctNames(a)
    ensures DrawOrder(setup, Fefo, a) == DrawOrder(setup, Fefo, b)
  {
    DrawOrderIsLexicographic(setup, a);
    DrawOrderIsLexicographic(setup, b);
    DrawBag(setup, a, b);
    if BinsMatter(setup, a) { BinsMatterOfTheBag(setup, a, b); }
    if BinsMatter(setup, b) { BinsMatterOfTheBag(setup, b, a); }
    var x, y := DrawOrder(setup, Fefo, a).value, DrawOrder(setup, Fefo, b).value;
    var le := FullOrder(setup, BinsMatter(setup, a));
    forall c, d | c in x && d in x && le(c, d) && le(d, c) ensures c == d {
      FullOrderDecides(setup, BinsMatter(setup, a), c, d);
      var i :| 0 <= i < |a| && a[i] == c;
      var j :| 0 <= j < |a| && a[j] == d;
    }
    SortedUnique(x, y, le);
  }

  /** A list drawn from another: nothing in it more often. */
  ghost predicate Within(a: seq<Candidate>, b: seq<Candidate>) {
    forall c: Candidate :: multiset(a)[c] <= multiset(b)[c]
  }

  lemma FilterWithin(s: seq<Candidate>, keep: Candidate -> bool)
    ensures Within(Filter(s, keep), s)
  {
    forall c: Candidate ensures multiset(Filter(s, keep))[c] <= multiset(s)[c] { FilterCounts(s, keep, c); }
  }

  lemma DrawOrderIsWithin(setup: Setup, cs: seq<Candidate>)
    requires !Mixed(cs)
    ensures Within(DrawOrder(setup, Fefo, cs).value, cs)
  {
    FefoIsLexicographic(cs);
    var ordered, usable := SortFefo(cs).value, UsableOf(setup, cs);
    FilterWithin(ordered, FreshEnough(setup));
    FilterWithin(Filter(ordered, FreshEnough(setup)), UnitAllows(setup));
    SequenceIsWithin(setup, usable);
    FilterWithin(BySequence(setup, usable), BinAllows(setup));
    SortPermutes(Candidates(setup, Fefo, cs).value, BySpecial());
  }

  lemma SequenceIsWithin(setup: Setup, cs: seq<Candidate>)
    ensures Within(BySequence(setup, cs), cs)
  {
    if setup.rank.Some? {
      FilterWithin(cs, InSequence(setup.types, setup.rank.value));
      SortPermutes(Filter(cs, InSequence(setup.types, setup.rank.value)), ByRank(setup.types, setup.rank.value));
    }
  }

  lemma {:induction false} CountedOnce(cs: seq<Candidate>, c: Candidate)
    requires DistinctNames(cs)
    ensures multiset(cs)[c] <= 1
  {
    if |cs| != 0 {
      var n := |cs| - 1;
      CountedOnce(cs[..n], c);
      assert cs == cs[..n] + [cs[n]];
      assert cs[n] !in cs[..n];
    }
  }

  lemma CountedTwice(cs: seq<Candidate>, i: nat, j: nat)
    requires i < j < |cs| && cs[i] == cs[j]
    ensures multiset(cs)[cs[i]] >= 2
  {
    assert cs == cs[..j] + cs[j..];
    assert cs[i] in cs[..j] && cs[j] in cs[j..];
  }

  lemma WithinKeepsNames(a: seq<Candidate>, b: seq<Candidate>)
    requires Within(a, b) && DistinctNames(b)
    ensures DistinctNames(a)
  {
    forall i, j | 0 <= i < |a| && 0 <= j < |a| && a[i].name == a[j].name ensures i == j {
      assert multiset(a)[a[i]] > 0 && multiset(a)[a[j]] > 0;
      assert a[i] in b && a[j] in b;
      var k :| 0 <= k < |b| && b[k] == a[i];
      var m :| 0 <= m < |b| && b[m] == a[j];
      assert k == m;
      CountedOnce(b, a[i]);
      if i < j { CountedTwice(a, i, j); } else if j < i { CountedTwice(a, j, i); }
    }
  }
}
