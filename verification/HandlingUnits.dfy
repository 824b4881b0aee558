/** Handling units nested in one another, and the steps that change who is in whom, and where. */
module HandlingUnits {
  import opened Basics
  import opened Hierarchy

  type Name = string

  /** `top` and `level` are filled in when the document is saved. */
  datatype Unit = Unit(parent: Option<Name>, bin: string, warehouse: string, top: Name, level: nat)

  type Units = map<Name, Unit>

  // ---------------------------------------------------------------- nesting

  /** Who is in whom. */
  function Nesting(s: Units): Parents<Name> { map h | h in s :: s[h].parent }

  predicate Together(s: Units, h: Name) {
    h in s && (s[h].parent.Some? ==>
        s[h].parent.value in s && s[s[h].parent.value].bin == s[h].bin &&
            s[s[h].parent.value].warehouse == s[h].warehouse)
  }

  /** No unit is inside itself, and each is where its parent is. */
  ghost predicate Forest(s: Units) { Acyclic(Nesting(s)) && forall h <- s.Keys :: Together(s, h) }

  predicate HasChildren(s: Units, h: Name) { exists c <- s.Keys :: s[c].parent == Some(h) }

  // ---------------------------------------------------------------- validation

  /** The walk up from a new parent: None when it meets a unit twice, else the unit on top. */
  function Walk(s: Units, visited: set<Name>, cur: Name): Option<Name>
    decreases |s.Keys - visited|
  {
    if cur in visited || cur !in s then None
    else if s[cur].parent.None? then Some(cur)
    else
      assert s.Keys - (visited + {cur}) < s.Keys - visited;
      Smaller(s.Keys - (visited + {cur}), s.Keys - visited);
      Walk(s, visited + {cur}, s[cur].parent.value)
  }

  /** Saving validates the document and fills in the unit on top and the level. */
  function Save(s: Units, h: Name, unit: Unit): Option<Units> {
    match unit.parent
    case None => Some(s[h := unit.(top := h, level := 0)])
    case Some(p) =>
      if p == h || p !in s then None
      else if s[p].warehouse != unit.warehouse || s[p].bin != unit.bin then None
      else
        match Walk(s, {h}, p)
        case None => None
        case Some(top) => Some(s[h := unit.(top := top, level := s[p].level + 1)])
  }

  // ---------------------------------------------------------------- the steps

  /** Everything in `h`, at any depth, goes to the bin. */
  ghost function MoveBelow(s: Units, h: Name, bin: string): Units {
    map n | n in s.Keys :: if n != h && Inside(Nesting(s), n, h) then s[n].(bin := bin) else s[n]
  }

  ghost predicate IsMovedBelow(s: Units, t: Units, h: Name, bin: string) { t == MoveBelow(s, h, bin) }

  ghost function Arrive(s: Units, h: Name, unit: Unit): Option<Units>
    requires h in s
  {
    match Save(s, h, unit)
    case None => None
    case Some(saved) => Some(if s[h].bin != unit.bin then MoveBelow(saved, h, unit.bin) else saved)
  }

  function Create(s: Units, h: Name, bin: string, warehouse: string): Option<Units> {
    if h in s then None else Save(s, h, Unit(None, bin, warehouse, h, 0))
  }

  ghost function Nest(s: Units, h: Name, p: Name): Option<Units> {
    if h == p || h !in s || p !in s || s[h].parent.Some? || s[p].warehouse != s[h].warehouse then None
    else Arrive(s, h, s[h].(parent := Some(p), bin := s[p].bin))
  }

  function Unnest(s: Units, h: Name): Option<Units> {
    if h !in s || s[h].parent.None? then None else Save(s, h, s[h].(parent := None))
  }

  /** `fits`: the bin is in the unit's warehouse, takes the unit, and no open task keeps the unit where it is. */
  ghost function Relocate(s: Units, h: Name, bin: string, fits: bool): Option<Units> {
    if h !in s || (s[h].bin == bin && s[h].parent.None?) || !fits then None
    else Arrive(s, h, s[h].(parent := None, bin := bin))
  }

  /** Into another unit at the packing station; what is in the unit comes along. `open`: the destination is open for
      packing and may hold the unit's delivery. */
  ghost function Pack(s: Units, h: Name, dest: Name, station: string, open: bool): Option<Units> {
    if !open || h == dest || h !in s || dest !in s || s[h].bin != station || s[dest].bin != station ||
        Inside(Nesting(s), dest, h) then None
    else
      match if s[h].parent.Some? then Unnest(s, h) else Some(s)
      case None => None
      case Some(loose) => Nest(loose, h, dest)
  }

  /** A drop in the packing center: on a unit, or on a bin. */
  ghost function Drop(s: Units, h: Name, dest: Option<Name>, bin: string, fits: bool): Option<Units> {
    match dest
    case None => Relocate(s, h, bin, fits)
    case Some(d) =>
      if h !in s || d !in s || Inside(Nesting(s), d, h) || s[h].parent == Some(d) then None
      else
        match if s[h].parent.Some? then Unnest(s, h) else Some(s)
        case None => None
        case Some(loose) => Nest(loose, h, d)
  }

  /** `idle`: the unit is empty and its type reusable. */
  function Recycle(s: Units, h: Name, idle: bool): Option<Units> {
    if h !in s || !idle || s[h].parent.Some? || HasChildren(s, h) then None else Some(s - {h})
  }

  /** An empty unit leaves the table: it is taken out of its parent and is nowhere afterwards. */
  function DeleteEmpty(s: Units, h: Name, station: string, empty: bool): Option<Units> {
    if h !in s || s[h].bin != station || !empty || HasChildren(s, h) then None
    else
      match if s[h].parent.Some? then Unnest(s, h) else Some(s)
      case None => None
      case Some(loose) => if h in loose then Some(loose[h := loose[h].(bin := "")]) else None
  }

  datatype Step =
    | CreateStep(h: Name, bin: string, warehouse: string)
    | NestStep(h: Name, parent: Name)
    | UnnestStep(h: Name)
    | RelocateStep(h: Name, bin: string, fits: bool)
    | PackStep(h: Name, dest: Name, station: string, open: bool)
    | DropStep(h: Name, target: Option<Name>, bin: string, fits: bool)
    | RecycleStep(h: Name, idle: bool)
    | DeleteStep(h: Name, station: string, empty: bool)

  ghost function Attempt(s: Units, step: Step): Option<Units> {
    match step
    case CreateStep(h, bin, warehouse) => Create(s, h, bin, warehouse)
    case NestStep(h, parent) => Nest(s, h, parent)
    case UnnestStep(h) => Unnest(s, h)
    case RelocateStep(h, bin, fits) => Relocate(s, h, bin, fits)
    case PackStep(h, dest, station, open) => Pack(s, h, dest, station, open)
    case DropStep(h, target, bin, fits) => Drop(s, h, target, bin, fits)
    case RecycleStep(h, idle) => Recycle(s, h, idle)
    case DeleteStep(h, station, empty) => DeleteEmpty(s, h, station, empty)
  }

  ghost function Run(s: Units, steps: seq<Step>): Units
    decreases |steps|
  {
    if |steps| == 0 then s else Run(Attempt(s, steps[0]).GetOr(s), steps[1..])
  }

  ghost predicate SameParents(s: Units, t: Units) {
    s.Keys == t.Keys && forall h <- s.Keys :: s[h].parent == t[h].parent
  }

  lemma SameNesting(s: Units, t: Units)
    requires SameParents(s, t)
    ensures Nesting(s) == Nesting(t)
  {
  }
}
