/** GS1 element strings: several data fields in one barcode, each behind its application identifier. */
module Gs1 {
  import opened Basics
  import opened Texts

  const GS: char := 29 as char

  /** Application identifiers of fixed length carry digits; the others any text up to a length. */
  datatype Field = Fixed(name: string, length: nat) | Variable(name: string, longest: nat)

  function FieldOf(ai: string): Option<Field> {
    if ai == "00" then Some(Fixed("sscc", 18))
    else if ai == "01" then Some(Fixed("gtin", 14))
    else if ai == "02" then Some(Fixed("content_gtin", 14))
    else if ai == "10" then Some(Variable("batch", 20))
    else if ai == "11" then Some(Fixed("production_date", 6))
    else if ai == "15" then Some(Fixed("best_before", 6))
    else if ai == "17" then Some(Fixed("expiry", 6))
    else if ai == "21" then Some(Variable("serial", 20))
    else if ai == "30" then Some(Variable("count", 8))
    else if ai == "37" then Some(Variable("count", 8))
    else None
  }

  /** Printable, or the separator. */
  predicate Scannable(s: string) { forall i :: 0 <= i < |s| ==> ' ' <= s[i] <= '~' || s[i] == GS }

  function UpTo(s: string, stop: char): (n: nat)
    ensures n <= |s|
  {
    if |s| == 0 || s[0] == stop then 0 else 1 + UpTo(s[1..], stop)
  }

  function Least(a: nat, b: nat): nat { if a <= b then a else b }

  type Values = map<string, string>

  /** What stands at the head of the rest: a separator, a field, or nothing that belongs there. */
  datatype Head = Separator | Piece(name: string, value: string) | Foreign

  function HeadOf(s: string): (h: Head)
    requires |s| > 0
    ensures h.Piece? ==> 2 + |h.value| <= |s|
  {
    if s[0] == GS then Separator
    else if |s| < 2 then Foreign
    else
      match FieldOf(s[..2])
      case None => Foreign
      case Some(Fixed(name, length)) =>
        if |s| < 2 + length || !AllDigits(s[2..2 + length]) then Foreign else Piece(name, s[2..2 + length])
      case Some(Variable(name, longest)) => Piece(name, s[2..2 + Least(UpTo(s[2..], GS), longest)])
  }

  /** The scan of the rest of an element string. */
  function Scan(s: string, out: Values): Option<Values>
    decreases |s|
  {
    if |s| == 0 then Some(out)
    else
      match HeadOf(s)
      case Foreign => None
      case Separator => Scan(s[1..], out)
      case Piece(name, value) => Scan(s[2 + |value|..], out[name := value])
  }

  /** One field alone is not an element string, except an SSCC, or a GTIN and nothing else. */
  predicate Enough(out: Values, length: nat) {
    |out| >= 2 || ("gtin" in out && out["gtin"] != "" && length == 16) || ("sscc" in out && out["sscc"] != "")
  }

  /** A group `(digits)` at the head of the text: the digits. */
  function Group(s: string): Option<string> {
    if |s| >= 4 && s[0] == '(' && s[3] == ')' && AllDigits(s[1..3]) then Some(s[1..3])
    else if |s| >= 5 && s[0] == '(' && s[4] == ')' && AllDigits(s[1..4]) then Some(s[1..4])
    else if |s| >= 6 && s[0] == '(' && s[5] == ')' && AllDigits(s[1..5]) then Some(s[1..5])
    else None
  }

  lemma GroupFits(s: string)
    requires Group(s).Some?
    ensures |Group(s).value| + 2 <= |s|
  {
  }

  /** The form people type: every group with the text up to the next bracket. */
  function Typed(s: string, out: Values): Option<Values>
    decreases |s|
  {
    if |s| == 0 then Some(out)
    else
      match Group(s)
      case None => Typed(s[1..], out)
      case Some(ai) =>
        GroupFits(s);
        var rest := s[|ai| + 2..];
        var n := UpTo(rest, '(');
        match FieldOf(ai)
        case None => None
        case Some(field) => Typed(rest[n..], out[field.name := Trim(rest[..n])])
  }

  predicate HasSymbology(s: string) {
    |s| >= 3 && (s[..3] == "]C1" || s[..3] == "]e0" || s[..3] == "]d2" || s[..3] == "]Q3")
  }

  predicate StartsWithAi(s: string) { |s| >= 2 && FieldOf(s[..2]).Some? }

  function ParseTyped(s: string): Option<Values> {
    match Typed(s, map[])
    case None => None
    case Some(out) => if out == map[] then None else Some(out)
  }

  function ParseScanned(s: string): Option<Values> {
    if !StartsWithAi(s) || !Scannable(s) then None
    else
      match Scan(s, map[])
      case None => None
      case Some(out) => if Enough(out, |s|) then Some(out) else None
  }

  /** Dates and counts are left as they were scanned. */
  function Parse(raw: string): Option<Values> {
    var trimmed := Trim(raw);
    var s := if HasSymbology(trimmed) then trimmed[3..] else trimmed;
    if trimmed == "" then None else if |s| > 0 && s[0] == '(' then ParseTyped(s) else ParseScanned(s)
  }

  lemma ScanTurn(s: string, i: nat, out: Values)
    requires i < |s|
    ensures Scan(s[i..], out) ==
      match HeadOf(s[i..])
      case Foreign => None
      case Separator => Scan(s[i + 1..], out)
      case Piece(name, value) => Scan(s[i + 2 + |value|..], out[name := value])
  {
    var rest := s[i..];
    assert rest[1..] == s[i + 1..];
    if HeadOf(rest).Piece? {
      var n := 2 + |HeadOf(rest).value|;
      assert rest[n..] == s[i + n..];
    }
  }

  /** The scan as it is done, with an index that moves on in every turn. */
  method ScanFields(s: string) returns (result: Option<Values>)
    ensures result == Scan(s, map[])
  {
    var out: Values, i := map[], 0;
    while i < |s|
      invariant 0 <= i <= |s| && Scan(s[i..], out) == Scan(s, map[])
      decreases |s| - i
    {
      var turn := OneField(s, i, out);
      if turn.None? { return None; }
      i, out := turn.value.0, turn.value.1;
    }
    assert s[i..] == "";
    result := Some(out);
  }

  /** One turn of the scan: where it goes on, and with what. */
  method OneField(s: string, i: nat, out: Values) returns (turn: Option<(nat, Values)>)
    requires i < |s|
    ensures turn.None? ==> Scan(s[i..], out).None?
    ensures turn.Some? ==> i < turn.value.0 <= |s| && Scan(s[turn.value.0..], turn.value.1) == Scan(s[i..], out)
  {
    ScanTurn(s, i, out);
    match HeadOf(s[i..]) {
      case Foreign => turn := None;
      case Separator => turn := Some((i + 1, out));
      case Piece(name, value) => turn := Some((i + 2 + |value|, out[name := value]));
    }
  }

  // ---------------------------------------------------------------- encoding

  datatype Element = Element(ai: string, value: string)

  /** A value its application identifier allows. */
  predicate Legal(e: Element) {
    match FieldOf(e.ai)
    case None => false
    case Some(Fixed(_, length)) => |e.value| == length && AllDigits(e.value)
    case Some(Variable(_, longest)) =>
      |e.value| <= longest && forall i :: 0 <= i < |e.value| ==> ' ' <= e.value[i] <= '~'
  }

  function NameOf(e: Element): string { match FieldOf(e.ai) case None => "" case Some(f) => f.name }

  /** The separator follows every field of variable length but the last. */
  function Encode(es: seq<Element>): string {
    if |es| == 0 then ""
    else
      var separator := if |es| > 1 && FieldOf(es[0].ai).Some? && FieldOf(es[0].ai).value.Variable? then [GS] else "";
      es[0].ai + es[0].value + separator + Encode(es[1..])
  }

  function Print(es: seq<Element>): string {
    if |es| == 0 then "" else "(" + es[0].ai + ")" + es[0].value + Print(es[1..])
  }

  /** A name that occurs twice keeps its last value. */
  function ValuesOf(es: seq<Element>, out: Values): Values
    decreases |es|
  {
    if |es| == 0 then out else ValuesOf(es[1..], out[NameOf(es[0]) := es[0].value])
  }

  predicate AllLegal(es: seq<Element>) { forall i :: 0 <= i < |es| ==> Legal(es[i]) }

  // ---------------------------------------------------------------- round trips

  lemma {:induction false} UpToStop(a: string, b: string, stop: char)
    requires stop !in a && (b == "" || b[0] == stop)
    ensures UpTo(a + b, stop) == |a|
  {
    if |a| == 0 {
      assert a + b == b;
    } else {
      assert (a + b)[1..] == a[1..] + b;
      UpToStop(a[1..], b, stop);
    }
  }

  lemma AisAreTwoDigits(ai: string)
    requires FieldOf(ai).Some?
    ensures |ai| == 2 && AllDigits(ai)
  {
  }

  lemma ScanTakesElement(e: Element, rest: string, out: Values)
    requires Legal(e) && (FieldOf(e.ai).value.Variable? ==> rest == "" || rest[0] == GS)
    ensures Scan(e.ai + e.value + rest, out) == Scan(rest, out[NameOf(e) := e.value])
  {
    var s := e.ai + e.value + rest;
    var n := |e.value|;
    AisAreTwoDigits(e.ai);
    assert s[..2] == e.ai && s[2..] == e.value + rest && s[2..2 + n] == e.value && s[2 + n..] == rest;
    assert IsDigit(s[0]) && s[0] != GS;
    if FieldOf(e.ai).value.Variable? {
      assert GS !in e.value;
      UpToStop(e.value, rest, GS);
    }
  }

  lemma {:induction false} ScanReadsEncoding(es: seq<Element>, out: Values)
    requires AllLegal(es)
    ensures Scan(Encode(es), out) == Some(ValuesOf(es, out))
    decreases |es|
  {
    if |es| != 0 {
      var e, tail := es[0], Encode(es[1..]);
      var separated := |es| > 1 && FieldOf(e.ai).value.Variable?;
      var rest := (if separated then [GS] else "") + tail;
      assert Encode(es) == e.ai + e.value + rest;
      ScanTakesElement(e, rest, out);
      if separated { assert rest[1..] == tail; } else { assert rest == tail; }
      ScanReadsEncoding(es[1..], out[NameOf(e) := e.value]);
    }
  }

  lemma {:induction false} EncodingIsScannable(es: seq<Element>)
    requires AllLegal(es)
    ensures Scannable(Encode(es))
  {
    if |es| != 0 {
      EncodingIsScannable(es[1..]);
      AisAreTwoDigits(es[0].ai);
    }
  }

  lemma EncodingStartsWithAi(es: seq<Element>)
    requires |es| > 0 && AllLegal(es)
    ensures |Encode(es)| >= 2 && Encode(es)[..2] == es[0].ai && IsDigit(Encode(es)[0])
  {
    AisAreTwoDigits(es[0].ai);
    var s := Encode(es);
    assert s[..2] == es[0].ai && s[0] == es[0].ai[0];
  }

  lemma {:induction false} EncodingEnds(es: seq<Element>)
    requires |es| > 0 && AllLegal(es)
    ensures EndsSolid(Encode(es)) <==> EndsSolid(es[|es| - 1].value)
    decreases |es|
  {
    if |es| == 1 {
      AisAreTwoDigits(es[0].ai);
      assert Encode(es[1..]) == "";
      assert Encode(es) == es[0].ai + es[0].value;
    } else {
      EncodingEnds(es[1..]);
      EncodingStartsWithAi(es[1..]);
      assert es[1..][|es| - 2] == es[|es| - 1];
    }
  }

  lemma NothingStripped(s: string)
    requires |s| > 0 && s[0] != ']' && Trim(s) == s
    ensures Parse(s) == if s[0] == '(' then ParseTyped(s) else ParseScanned(s)
  {
    assert |s| >= 3 ==> s[..3][0] == s[0];
    assert !HasSymbology(s);
  }

  lemma TrimOfSolidStart(s: string)
    requires |s| > 0 && IsDigit(s[0])
    ensures Trim(s) == TrimRight(s)
  {
    assert TrimLeft(s) == s;
  }

  lemma SolidReadsEncoding(es: seq<Element>)
    requires |es| > 0 && AllLegal(es) && EndsSolid(es[|es| - 1].value)
    ensures Trim(Encode(es)) == Encode(es)
    ensures Parse(Encode(es)) == if Enough(ValuesOf(es, map[]), |Encode(es)|) then Some(ValuesOf(es, map[])) else None
  {
    var s := Encode(es);
    EncodingEnds(es);
    EncodingStartsWithAi(es);
    TrimIsIdentity(s);
    NothingStripped(s);
    ScanReadsEncoding(es, map[]);
    EncodingIsScannable(es);
    assert Legal(es[0]);
  }

  /** The fields as they arrive: the spaces at the end of the last value are stripped with the text. */
  function Shorn(es: seq<Element>): seq<Element>
    requires |es| > 0
  {
    es[..|es| - 1] + [es[|es| - 1].(value := TrimRight(es[|es| - 1].value))]
  }

  lemma ShornIsLegal(es: seq<Element>)
    requires |es| > 0 && AllLegal(es)
    ensures AllLegal(Shorn(es)) && EndsSolid(Shorn(es)[|es| - 1].value) && |Shorn(es)| == |es|
  {
    var e := es[|es| - 1];
    TrimRightIs(e.value);
    assert Legal(e);
  }

  lemma {:induction false} TrimRightIs(s: string)
    ensures |TrimRight(s)| <= |s| && TrimRight(s) == s[..|TrimRight(s)|] && EndsSolid(TrimRight(s))
    ensures AllDigits(s) ==> TrimRight(s) == s
    ensures TrimRight(s) == s <==> EndsSolid(s)
  {
    if |s| > 0 && IsSpace(s[|s| - 1]) { TrimRightIs(s[..|s| - 1]); }
  }

  lemma {:induction false} TrimRightOfBoth(a: string, b: string)
    requires |a| > 0 && EndsSolid(a)
    ensures TrimRight(a + b) == a + TrimRight(b)
  {
    if |b| > 0 {
      assert (a + b)[..|a + b| - 1] == a + b[..|b| - 1];
      if IsSpace(b[|b| - 1]) { TrimRightOfBoth(a, b[..|b| - 1]); }
    }
  }

  function Separated(e: Element): string {
    e.ai + e.value + if FieldOf(e.ai).Some? && FieldOf(e.ai).value.Variable? then [GS] else ""
  }

  /** All of the element string before its last value. */
  function Before(es: seq<Element>): (front: string)
    requires |es| > 0
  {
    if |es| == 1 then es[0].ai else Separated(es[0]) + Before(es[1..])
  }

  lemma EncodeStep(es: seq<Element>)
    requires |es| > 1
    ensures Encode(es) == Separated(es[0]) + Encode(es[1..])
  {
  }

  lemma Grouping(a: string, b: string, c: string)
    ensures a + (b + c) == (a + b) + c
  {
  }

  lemma {:induction false} EncodeEnds(es: seq<Element>)
    requires |es| > 0
    ensures Encode(es) == Before(es) + es[|es| - 1].value
    decreases |es|
  {
    if |es| == 1 {
      assert Encode(es[1..]) == "" && Encode(es) == es[0].ai + es[0].value;
    } else {
      var rest := es[1..];
      var last := rest[|rest| - 1].value;
      EncodeEnds(rest);
      EncodeStep(es);
      Grouping(Separated(es[0]), Before(rest), last);
    }
  }

  lemma {:induction false} ShornEnds(es: seq<Element>)
    requires |es| > 0
    ensures Before(Shorn(es)) == Before(es)
  {
    if |es| > 1 {
      ShornEnds(es[1..]);
      assert Shorn(es)[1..] == Shorn(es[1..]) && Shorn(es)[0] == es[0];
    }
  }

  lemma {:induction false} FrontIsSolid(es: seq<Element>)
    requires |es| > 0 && AllLegal(es)
    ensures |Before(es)| > 0 && EndsSolid(Before(es))
  {
    AisAreTwoDigits(es[0].ai);
    if |es| > 1 { FrontIsSolid(es[1..]); }
  }

  /** Every list of legal fields comes back as the map of its names and last values, less the spaces at the very end,
      when it counts as an element string at all. */
  lemma ParseReadsEncoding(es: seq<Element>)
    requires |es| > 0 && AllLegal(es)
    ensures var shorn := Shorn(es);
      Parse(Encode(es)) == if Enough(ValuesOf(shorn, map[]), |Encode(shorn)|) then Some(ValuesOf(shorn, map[]))
          else None
  {
    ShornIsLegal(es);
    SolidReadsEncoding(Shorn(es));
    EncodeEnds(es);
    EncodeEnds(Shorn(es));
    ShornEnds(es);
    FrontIsSolid(es);
    TrimRightOfBoth(Before(es), es[|es| - 1].value);
    EncodingStartsWithAi(es);
    TrimOfSolidStart(Encode(es));
  }

  predicate DistinctNames(es: seq<Element>) { forall i, j :: 0 <= i < j < |es| ==> NameOf(es[i]) != NameOf(es[j]) }

  lemma {:induction false} ValuesAre(es: seq<Element>, out: Values)
    requires DistinctNames(es)
    ensures forall i ::
        0 <= i < |es| ==> NameOf(es[i]) in ValuesOf(es, out) && ValuesOf(es, out)[NameOf(es[i])] == es[i].value
    ensures forall name ::
        name in ValuesOf(es, out) && (forall i :: 0 <= i < |es| ==> NameOf(es[i]) != name) ==>
          name in out && ValuesOf(es, out)[name] == out[name]
    ensures forall name :: name in out ==> name in ValuesOf(es, out)
    decreases |es|
  {
    if |es| != 0 {
      var next := out[NameOf(es[0]) := es[0].value];
      var rest := es[1..];
      ValuesAre(rest, next);
      assert forall i :: 0 < i < |es| ==> es[i] == rest[i - 1];
      assert forall i :: 0 <= i < |rest| ==> rest[i] == es[i + 1];
    }
  }

  lemma ShornKeepsNames(es: seq<Element>)
    requires |es| > 0 && DistinctNames(es)
    ensures |Shorn(es)| == |es| && DistinctNames(Shorn(es))
    ensures (forall i :: 0 <= i < |es| ==> NameOf(Shorn(es)[i]) == NameOf(es[i]))
  {
    forall i | 0 <= i < |es| ensures NameOf(Shorn(es)[i]) == NameOf(es[i]) {
      if i == |es| - 1 { assert Shorn(es)[i].ai == es[i].ai; } else { assert Shorn(es)[i] == es[i]; }
    }
  }

  lemma HeldExactly(es: seq<Element>)
    requires DistinctNames(es)
    ensures HoldsExactly(ValuesOf(es, map[]), es)
  {
    ValuesAre(es, map[]);
  }

  /** Both lists in one map: the last values agree. */
  lemma BothHeld(es: seq<Element>, out: Values)
    requires |es| > 0 && DistinctNames(es) && HoldsExactly(out, Shorn(es))
    ensures HoldsExactly(out, es) <==> EndsSolid(es[|es| - 1].value)
  {
    var n, shorn := |es| - 1, Shorn(es);
    ShornKeepsNames(es);
    TrimRightIs(es[n].value);
    assert out[NameOf(shorn[n])] == shorn[n].value == TrimRight(es[n].value);
    if EndsSolid(es[n].value) { assert shorn == es; }
  }

  /** With different names, two fields or more are always enough, and nothing is lost or added but spaces at the very
      end. */
  lemma ParseRoundTrip(es: seq<Element>)
    requires |es| >= 2 && AllLegal(es) && DistinctNames(es)
    ensures Parse(Encode(es)).Some? && HoldsExactly(Parse(Encode(es)).value, Shorn(es))
    ensures HoldsExactly(Parse(Encode(es)).value, es) <==> EndsSolid(es[|es| - 1].value)
  {
    var shorn := Shorn(es);
    var out := ValuesOf(shorn, map[]);
    ShornKeepsNames(es);
    HeldExactly(shorn);
    assert NameOf(shorn[0]) in out && NameOf(shorn[1]) in out;
    TwoAreEnough(shorn, out, |Encode(shorn)|);
    ParseReadsEncoding(es);
    BothHeld(es, out);
  }

  /** The fields under their names, and nothing else. */
  ghost predicate HoldsExactly(out: Values, es: seq<Element>) {
    && (forall i :: 0 <= i < |es| ==> NameOf(es[i]) in out && out[NameOf(es[i])] == es[i].value)
    && (forall name <- out.Keys :: exists i :: 0 <= i < |es| && NameOf(es[i]) == name)
  }

  lemma TwoAreEnough(es: seq<Element>, out: Values, length: nat)
    requires |es| >= 2 && NameOf(es[0]) != NameOf(es[1]) && NameOf(es[0]) in out && NameOf(es[1]) in out
    ensures Enough(out, length)
  {
    var names := {NameOf(es[0]), NameOf(es[1])};
    Bigger(names, out.Keys);
    assert |out| == |out.Keys|;
  }

  lemma Bigger<T>(a: set<T>, b: set<T>)
    requires a <= b
    ensures |a| <= |b|
  {
    assert b == a + (b - a);
  }

  // ---------------------------------------------------------------- the typed form

  /** A value that survives the typed form: no bracket, no space at its ends. */
  predicate Typeable(e: Element) {
    '(' !in e.value && EndsSolid(e.value) && (e.value == "" || !IsSpace(e.value[0]))
  }

  lemma {:induction false} PrintStarts(es: seq<Element>)
    ensures Print(es) == "" || Print(es)[0] == '('
  {
  }

  lemma TypedTakesElement(e: Element, rest: string, out: Values)
    requires FieldOf(e.ai).Some? && Typeable(e) && (rest == "" || rest[0] == '(')
    ensures Typed("(" + e.ai + ")" + e.value + rest, out) == Typed(rest, out[NameOf(e) := e.value])
  {
    var s := "(" + e.ai + ")" + e.value + rest;
    AisAreTwoDigits(e.ai);
    assert s[1..3] == e.ai && s[3] == ')';
    assert Group(s) == Some(e.ai);
    var after := s[4..];
    assert after == e.value + rest;
    UpToStop(e.value, rest, '(');
    assert after[..|e.value|] == e.value && after[|e.value|..] == rest;
    TrimIsIdentity(e.value);
  }

  lemma {:induction false} TypedReadsPrint(es: seq<Element>, out: Values)
    requires forall i :: 0 <= i < |es| ==> FieldOf(es[i].ai).Some? && Typeable(es[i])
    ensures Typed(Print(es), out) == Some(ValuesOf(es, out))
    decreases |es|
  {
    if |es| != 0 {
      PrintStarts(es[1..]);
      TypedTakesElement(es[0], Print(es[1..]), out);
      TypedReadsPrint(es[1..], out[NameOf(es[0]) := es[0].value]);
    }
  }

  lemma {:induction false} PrintEnds(es: seq<Element>)
    requires |es| > 0 && EndsSolid(es[|es| - 1].value)
    ensures |Print(es)| > 0 && EndsSolid(Print(es))
    decreases |es|
  {
    if |es| == 1 {
      assert Print(es[1..]) == "";
    } else {
      PrintEnds(es[1..]);
      assert es[1..][|es| - 2] == es[|es| - 1];
    }
  }

  lemma {:induction false} SomeValue(es: seq<Element>, out: Values)
    requires |es| > 0
    ensures ValuesOf(es, out) != map[]
    decreases |es|
  {
    var next := out[NameOf(es[0]) := es[0].value];
    assert NameOf(es[0]) in next;
    if |es| > 1 { SomeValue(es[1..], next); }
  }

  /** What a scanner reads and what a person types give the same values, whenever the scanned form is accepted. */
  lemma ScannedAndTypedAgree(es: seq<Element>)
    requires |es| > 0 && AllLegal(es) && forall i :: 0 <= i < |es| ==> Typeable(es[i])
    ensures Parse(Encode(es)).Some? ==> Parse(Print(es)) == Parse(Encode(es))
    ensures Parse(Print(es)) == Some(ValuesOf(es, map[]))
  {
    assert Typeable(es[|es| - 1]);
    SolidReadsEncoding(es);
    TypedParses(es);
  }

  lemma TypedParses(es: seq<Element>)
    requires |es| > 0 && forall i :: 0 <= i < |es| ==> FieldOf(es[i].ai).Some? && Typeable(es[i])
    ensures Parse(Print(es)) == Some(ValuesOf(es, map[]))
  {
    PrintIsSolid(es);
    BracketIsNoSpace();
    TrimIsIdentity(Print(es));
    NothingStripped(Print(es));
    TypedReadsPrint(es, map[]);
    SomeValue(es, map[]);
  }

  lemma BracketIsNoSpace()
    ensures !IsSpace('(') && '(' != ']'
  {
  }

  lemma PrintIsSolid(es: seq<Element>)
    requires |es| > 0 && Typeable(es[|es| - 1])
    ensures |Print(es)| > 0 && Print(es)[0] == '(' && EndsSolid(Print(es))
  {
    PrintStarts(es);
    PrintEnds(es);
  }

  // ---------------------------------------------------------------- printed and stored GTINs

  /** The code, then with its leading zeros taken off one by one, down to 8 digits. */
  function Shortened(t: string): seq<string>
    decreases |t|
  {
    if |t| > 8 && t[0] == '0' then [t[1..]] + Shortened(t[1..]) else []
  }

  predicate IsShortGtin(code: string) { |code| > 0 && AllDigits(code) && (|code| == 8 || |code| == 12 || |code| == 13) }

  function Dedup(s: seq<string>): (r: seq<string>) {
    if |s| == 0 then [] else if s[|s| - 1] in s[..|s| - 1] then Dedup(s[..|s| - 1])
        else Dedup(s[..|s| - 1]) + [s[|s| - 1]]
  }

  function GtinVariants(code: string): seq<string> {
    Dedup([code] + Shortened(code) + if IsShortGtin(code) then [ZeroFilled(code, 14)] else [])
  }

  method ListGtinVariants(code: string) returns (variants: seq<string>)
    ensures variants == GtinVariants(code)
  {
    var out, t := [code], code;
    while |t| > 8 && t[0] == '0'
      invariant out + Shortened(t) == [code] + Shortened(code)
      decreases |t|
    {
      ghost var longer := t;
      t := t[1..];
      assert out + ([t] + Shortened(t)) == (out + [t]) + Shortened(t);
      out := out + [t];
    }
    assert out + [] == out;
    if IsShortGtin(code) { out := out + [ZeroFilled(code, 14)]; }
    variants := Dedup(out);
  }

  lemma {:induction false} DedupKeeps(s: seq<string>)
    ensures forall x :: x in Dedup(s) <==> x in s
  {
    if |s| != 0 {
      DedupKeeps(s[..|s| - 1]);
      assert s == s[..|s| - 1] + [s[|s| - 1]];
    }
  }

  lemma {:induction false} ShortenedReaches(t: string, n: nat)
    requires |t| >= 8
    ensures n > 0 ==> t in Shortened(Zeros(n) + t)
    decreases n
  {
    if n > 0 {
      assert (Zeros(n) + t)[1..] == Zeros(n - 1) + t;
      if n == 1 { assert Zeros(0) + t == t; } else { ShortenedReaches(t, n - 1); }
    }
  }

  /** The variants of a stored code hold the printed one, and those of the printed code the stored one. */
  lemma VariantsMatchBothWays(code: string)
    requires IsShortGtin(code)
    ensures ZeroFilled(code, 14) in GtinVariants(code)
    ensures code in GtinVariants(ZeroFilled(code, 14))
  {
    var printed := ZeroFilled(code, 14);
    var all := [code] + Shortened(code) + [printed];
    assert all[|all| - 1] == printed;
    DedupKeeps(all);
    ShortenedReaches(code, 14 - |code|);
    var more := [printed] + Shortened(printed) + if IsShortGtin(printed) then [ZeroFilled(printed, 14)] else [];
    DedupKeeps(more);
    assert code in Shortened(printed);
  }

  /** Without its leading zeros. */
  function Significant(code: string): string
    decreases |code|
  {
    if |code| > 0 && code[0] == '0' then Significant(code[1..]) else code
  }

  lemma {:induction false} ShortenedIsSame(t: string)
    ensures forall x <- Shortened(t) :: Significant(x) == Significant(t)
    decreases |t|
  {
    if |t| > 8 && t[0] == '0' { ShortenedIsSame(t[1..]); }
  }

  lemma {:induction false} ZerosAreNothing(n: nat, code: string)
    ensures Significant(Zeros(n) + code) == Significant(code)
  {
    if n == 0 {
      assert Zeros(0) + code == code;
    } else {
      assert (Zeros(n) + code)[1..] == Zeros(n - 1) + code;
      ZerosAreNothing(n - 1, code);
    }
  }

  /** No variant is another number. */
  lemma VariantsAreTheSameNumber(code: string, x: string)
    requires x in GtinVariants(code)
    ensures Significant(x) == Significant(code)
  {
    DedupKeeps([code] + Shortened(code) + if IsShortGtin(code) then [ZeroFilled(code, 14)] else []);
    ShortenedIsSame(code);
    if IsShortGtin(code) { ZerosAreNothing(14 - |code|, code); }
  }
}
