/** What is written into a telegram is what is read from it. */
module TelegramProofs {
  import opened Basics
  import opened Texts
  import opened Telegram

  /** No two fields overlap. */
  ghost predicate Disjoint(fields: seq<Field>) {
    forall i, j :: 0 <= i < j < |fields| ==> End(fields[i]) <= fields[j].start || End(fields[j]) <= fields[i].start
  }

  ghost predicate DistinctNames(fields: seq<Field>) {
    forall i, j :: 0 <= i < j < |fields| ==> fields[i].name != fields[j].name
  }

  // ---------------------------------------------------------------- the buffer

  lemma OverwriteAt(buf: string, start: nat, text: string, i: nat)
    requires start + |text| <= |buf| && i < |buf|
    ensures Overwrite(buf, start, text)[i] == if start <= i < start + |text| then text[i - start] else buf[i]
  {
  }

  /** The telegram has the text in the field's place. */
  ghost predicate Shows(t: string, f: Field, text: string) {
    |text| == f.length && End(f) <= |t| && t[f.start..End(f)] == text
  }

  lemma OverwriteShows(buf: string, f: Field, text: string)
    requires |text| == f.length && End(f) <= |buf|
    ensures Shows(Overwrite(buf, f.start, text), f, text)
  {
    forall i | f.start <= i < End(f)
      ensures Overwrite(buf, f.start, text)[i] == text[i - f.start]
    {
      OverwriteAt(buf, f.start, text, i);
    }
  }

  lemma OverwriteKeeps(buf: string, f: Field, text: string, g: Field, other: string)
    requires |text| == f.length && End(f) <= |buf| && Shows(buf, g, other) && (End(g) <= f.start || End(f) <= g.start)
    ensures Shows(Overwrite(buf, f.start, text), g, other)
  {
    forall i | g.start <= i < End(g)
      ensures Overwrite(buf, f.start, text)[i] == buf[i]
    {
      OverwriteAt(buf, f.start, text, i);
    }
  }

  /** The text that is written for a field. */
  function Written(f: Field, values: map<string, Value>, whole: string -> int): string {
    if f.constant != "" then TextOf(f, Chars(f.constant), whole)
    else if f.name in values then TextOf(f, values[f.name], whole)
    else ""
  }

  lemma WriteStep(fields: seq<Field>, values: map<string, Value>, whole: string -> int, length: nat)
    requires |fields| > 0 && LengthOf(fields) <= length && Write(fields, values, whole, length).Some?
    ensures var n := |fields| - 1; var text := Written(fields[n], values, whole);
      && Write(fields[..n], values, whole, length).Some? && RawOf(fields[n], values).Some? &&
          |text| <= fields[n].length && End(fields[n]) <= length
      && Write(fields, values, whole, length).value ==
          Overwrite(Write(fields[..n], values, whole, length).value, fields[n].start, Padded(fields[n], text))
  {
    LongestEnd(fields, |fields| - 1);
  }

  lemma {:induction false} WriteShows(fields: seq<Field>, values: map<string, Value>, whole: string -> int, length: nat,
        k: nat)
    requires Disjoint(fields) && LengthOf(fields) <= length && k < |fields|
    requires Write(fields, values, whole, length).Some?
    ensures var f := fields[k];
      && RawOf(f, values).Some? && |Written(f, values, whole)| <= f.length
      && Shows(Write(fields, values, whole, length).value, f, Padded(f, Written(f, values, whole)))
  {
    var n := |fields| - 1;
    WriteStep(fields, values, whole, length);
    var buf, text := Write(fields[..n], values, whole, length).value, Padded(fields[n],
        Written(fields[n], values, whole));
    if k < n {
      WriteShows(fields[..n], values, whole, length, k);
      assert End(fields[k]) <= fields[n].start || End(fields[n]) <= fields[k].start;
      OverwriteKeeps(buf, fields[n], text, fields[k], Padded(fields[k], Written(fields[k], values, whole)));
    } else {
      OverwriteShows(buf, fields[n], text);
    }
  }

  ghost predicate Uncovered(fields: seq<Field>, p: nat) {
    forall i :: 0 <= i < |fields| ==> p < fields[i].start || End(fields[i]) <= p
  }

  lemma {:induction false} WriteLeavesSpaces(fields: seq<Field>, values: map<string, Value>, whole: string -> int,
        length: nat, p: nat)
    requires LengthOf(fields) <= length && Write(fields, values, whole, length).Some? && p < length
    requires Uncovered(fields, p)
    ensures Write(fields, values, whole, length).value[p] == ' '
  {
    var n := |fields| - 1;
    if |fields| == 0 {
      FillHas(length, ' ');
    } else {
      WriteStep(fields, values, whole, length);
      WriteLeavesSpaces(fields[..n], values, whole, length, p);
      assert p < fields[n].start || End(fields[n]) <= p;
      OverwriteAt(Write(fields[..n], values, whole, length).value, fields[n].start,
          Padded(fields[n], Written(fields[n], values, whole)), p);
    }
  }

  /** A telegram is as long as its last field reaches, has every field's padded text in its place, and spaces
      elsewhere. */
  lemma TelegramShape(fields: seq<Field>, values: map<string, Value>, whole: string -> int)
    requires Disjoint(fields) && Build(fields, values, whole).Some?
    ensures var t := Build(fields, values, whole).value;
      && |t| == LengthOf(fields) && (exists i :: 0 <= i < |fields| && End(fields[i]) == |t|) &&
          (forall i :: 0 <= i < |fields| ==> End(fields[i]) <= |t|)
      && (forall k :: 0 <= k < |fields| ==>
          |Written(fields[k], values, whole)| <= fields[k].length &&
              Shows(t, fields[k], Padded(fields[k], Written(fields[k], values, whole))))
      && (forall p :: 0 <= p < |t| && Uncovered(fields, p) ==> t[p] == ' ')
  {
    var t := Build(fields, values, whole).value;
    SomeEnd(fields);
    forall k | 0 <= k < |fields| ensures End(fields[k]) <= |t| &&
        |Written(fields[k], values, whole)| <= fields[k].length
      && Shows(t, fields[k], Padded(fields[k], Written(fields[k], values, whole)))
    {
      WriteShows(fields, values, whole, LengthOf(fields), k);
    }
    forall p | 0 <= p < |t| && Uncovered(fields, p)
      ensures t[p] == ' '
    {
      WriteLeavesSpaces(fields, values, whole, LengthOf(fields), p);
    }
  }

  lemma {:induction false} SomeEnd(fields: seq<Field>)
    requires |fields| > 0
    ensures exists i :: 0 <= i < |fields| && End(fields[i]) == LengthOf(fields)
  {
    var n := |fields| - 1;
    if End(fields[n]) != LengthOf(fields) {
      SomeEnd(fields[..n]);
      var i :| 0 <= i < n && End(fields[..n][i]) == LengthOf(fields[..n]);
      assert End(fields[i]) == LengthOf(fields);
    }
  }

  // ---------------------------------------------------------------- stripping

  lemma {:induction false} TrimLeftOfBoth(s: string, t: string)
    ensures TrimLeft(s + t) == if TrimLeft(s) == "" then TrimLeft(t) else TrimLeft(s) + t
  {
    if |s| == 0 {
      assert s + t == t;
    } else {
      assert (s + t)[1..] == s[1..] + t;
      if IsSpace(s[0]) { TrimLeftOfBoth(s[1..], t); }
    }
  }

  lemma {:induction false} FillIsSpace(n: nat)
    ensures TrimLeft(Fill(n, ' ')) == ""
  {
    if n != 0 {
      assert Fill(n, ' ')[1..] == Fill(n - 1, ' ');
      FillIsSpace(n - 1);
    }
  }

  lemma {:induction false} TrimRightOfFill(s: string, n: nat)
    ensures TrimRight(s + Fill(n, ' ')) == TrimRight(s)
  {
    if n == 0 {
      assert s + Fill(0, ' ') == s;
    } else {
      FillEnds(n);
      var all := s + Fill(n, ' ');
      assert all[..|all| - 1] == s + Fill(n - 1, ' ') && all[|all| - 1] == ' ';
      TrimRightOfFill(s, n - 1);
    }
  }

  lemma {:induction false} FillEnds(n: nat)
    requires n > 0
    ensures Fill(n, ' ') == Fill(n - 1, ' ') + " "
  {
    if n > 1 { FillEnds(n - 1); }
  }

  /** Spaces around a text go, and with them those it had at its ends. */
  lemma TrimTakesFill(text: string, n: nat)
    ensures Trim(text + Fill(n, ' ')) == Trim(text) == Trim(Fill(n, ' ') + text)
  {
    FillIsSpace(n);
    TrimLeftOfBoth(text, Fill(n, ' '));
    TrimLeftOfBoth(Fill(n, ' '), text);
    if TrimLeft(text) != "" { TrimRightOfFill(TrimLeft(text), n); }
  }

  lemma DigitsAreSolid(s: string)
    requires IsNumber(s) || (|s| > 0 && s[0] == '-' && IsNumber(s[1..]))
    ensures Trim(s) == s
  {
    assert !IsSpace(s[0]);
    assert IsNumber(s) ==> IsDigit(s[|s| - 1]);
    assert !IsNumber(s) ==> s[1..][|s| - 2] == s[|s| - 1] && IsDigit(s[|s| - 1]);
    TrimIsIdentity(s);
  }

  // ---------------------------------------------------------------- numbers

  lemma SignedReads(n: int)
    ensures Trim(Signed(n)) == Signed(n) && IsNumber(WithoutMinus(Signed(n))) && ToWhole(Signed(n)) == Whole(n)
  {
    var s := Signed(n);
    if n >= 0 {
      DecimalIsDigits(n);
      NumberOfDecimal(n);
      assert IsNumber(s);
    } else {
      DecimalIsDigits(-n);
      NumberOfDecimal(-n);
      assert s[1..] == Decimal(-n) && IsNumber(s[1..]);
      assert s[0] == '-' && !IsDigit(s[0]);
      assert !IsNumber(s);
      assert IsDigit(s[1..][0]);
      assert WithoutMinus(s[1..]) == s[1..];
    }
    DigitsAreSolid(s);
  }

  lemma {:induction false} FillIsZeros(n: nat)
    ensures Fill(n, '0') == Zeros(n)
  {
    if n != 0 { FillIsZeros(n - 1); }
  }

  lemma ZeroPaddedReads(n: nat, k: nat)
    ensures var s := Fill(k, '0') + Decimal(n); Trim(s) == s && IsNumber(WithoutMinus(s)) && ToWhole(s) == Whole(n)
  {
    var s := Fill(k, '0') + Decimal(n);
    FillIsZeros(k);
    ZerosAreDigits(k);
    DecimalIsDigits(n);
    NumberOfDecimal(n);
    ZerosCountNothing(k, Decimal(n));
    assert IsNumber(s) && IsDigit(s[0]);
    DigitsAreSolid(s);
  }

  /** A minus sign behind padding zeros makes a text that is no whole number. */
  lemma MinusBehindZeros(n: int, k: nat)
    requires n < 0 && k > 0
    ensures var s := Fill(k, '0') + Signed(n); Trim(s) == s && !IsNumber(WithoutMinus(s))
  {
    var s := Fill(k, '0') + Signed(n);
    DecimalIsDigits(-n);
    FillHas(k, '0');
    assert s[0] == '0' && s[k] == '-';
    assert s[|s| - 1] == Decimal(-n)[|Decimal(-n)| - 1] && IsDigit(s[|s| - 1]);
    TrimIsIdentity(s);
  }

  // ---------------------------------------------------------------- one field

  /** Text padded with spaces; whole numbers padded with spaces, or with zeros on the left. */
  predicate PlainLayout(f: Field) {
    match f.kind
    case Text => PadOf(f) == ' '
    case Integer => PadOf(f) == ' ' || (PadOf(f) == '0' && !ToTheLeft(f))
    case Decimals => false
  }

  function WholeOf(v: Value, whole: string -> int): int { match v case Number(n) => n case Chars(s) => whole(s) }

  /** What should come back. */
  function Expected(f: Field, v: Value, whole: string -> int): Reading {
    if f.kind == Integer then Whole(WholeOf(v, whole)) else Plain(TextOf(f, v, whole))
  }

  /** Text without spaces at its ends; any number in spaces; behind zeros one that is not negative or leaves no room for
      them. */
  predicate ComesBack(f: Field, v: Value, whole: string -> int) {
    if f.kind == Integer then PadOf(f) == ' ' || WholeOf(v, whole) >= 0 || |Signed(WholeOf(v, whole))| == f.length
    else Trim(TextOf(f, v, whole)) == TextOf(f, v, whole)
  }

  /** How a padded text reads. */
  function ReadText(f: Field, text: string): Reading {
    if Trim(text) == "" then Plain(Trim(text))
    else
      match f.kind
      case Text => Plain(Trim(text))
      case Decimals => Fraction(Trim(text))
      case Integer => if IsNumber(WithoutMinus(Trim(text))) then ToWhole(Trim(text)) else Fraction(Trim(text))
  }

  lemma TextFieldReads(f: Field, v: Value, whole: string -> int)
    requires f.kind == Text && PadOf(f) == ' ' && |TextOf(f, v, whole)| <= f.length
    ensures ReadText(f, Padded(f, TextOf(f, v, whole))) == Plain(Trim(TextOf(f, v, whole)))
  {
    TrimTakesFill(TextOf(f, v, whole), f.length - |TextOf(f, v, whole)|);
  }

  lemma SpacedNumberReads(f: Field, n: int)
    requires f.kind == Integer && PadOf(f) == ' ' && |Signed(n)| <= f.length
    ensures ReadText(f, Padded(f, Signed(n))) == Whole(n)
  {
    SignedReads(n);
    TrimTakesFill(Signed(n), f.length - |Signed(n)|);
  }

  lemma ZeroedNumberReads(f: Field, n: int)
    requires f.kind == Integer && PadOf(f) == '0' && !ToTheLeft(f) && |Signed(n)| <= f.length
    ensures var r := ReadText(f, Padded(f, Signed(n)));
        !r.Malformed? && (r == Whole(n) <==> n >= 0 || |Signed(n)| == f.length)
  {
    var k := f.length - |Signed(n)|;
    assert Padded(f, Signed(n)) == Fill(k, '0') + Signed(n);
    if n >= 0 {
      ZeroPaddedReads(n, k);
    } else if k > 0 {
      MinusBehindZeros(n, k);
    } else {
      SignedReads(n);
      assert Fill(0, '0') + Signed(n) == Signed(n);
    }
  }

  lemma NumberFieldReads(f: Field, v: Value, whole: string -> int)
    requires f.kind == Integer && PlainLayout(f) && |TextOf(f, v, whole)| <= f.length
    ensures var r := ReadText(f, Padded(f, TextOf(f, v, whole)));
        !r.Malformed? && (r == Whole(WholeOf(v, whole)) <==> ComesBack(f, v, whole))
  {
    if PadOf(f) == ' ' { SpacedNumberReads(f, WholeOf(v, whole)); } else { ZeroedNumberReads(f, WholeOf(v, whole)); }
  }

  /** A field is read back as it was meant exactly when its value fits its padding. */
  lemma FieldReadsBackExactly(f: Field, v: Value, whole: string -> int)
    requires PlainLayout(f) && |TextOf(f, v, whole)| <= f.length
    ensures var r := ReadText(f, Padded(f, TextOf(f, v, whole)));
        !r.Malformed? && (r == Expected(f, v, whole) <==> ComesBack(f, v, whole))
  {
    if f.kind == Integer { NumberFieldReads(f, v, whole); } else { TextFieldReads(f, v, whole); }
  }

  // ---------------------------------------------------------------- the whole telegram

  lemma {:induction false} ParseSucceeds(fields: seq<Field>, raw: string)
    requires forall i :: 0 <= i < |fields| ==> !Read(fields[i], raw).Malformed?
    ensures Parse(fields, raw).Some?
  {
    if |fields| != 0 { ParseSucceeds(fields[..|fields| - 1], raw); }
  }

  lemma ParseStep(fields: seq<Field>, raw: string)
    requires |fields| > 0 && Parse(fields, raw).Some?
    ensures var n := |fields| - 1;
      Parse(fields[..n], raw).Some? &&
          Parse(fields, raw).value == Parse(fields[..n], raw).value[fields[n].name := Read(fields[n], raw)]
  {
  }

  lemma {:induction false} ParseReads(fields: seq<Field>, raw: string, k: nat)
    requires DistinctNames(fields) && k < |fields| && Parse(fields, raw).Some?
    ensures fields[k].name in Parse(fields, raw).value
    ensures Parse(fields, raw).value[fields[k].name] == Read(fields[k], raw)
  {
    var n := |fields| - 1;
    ParseStep(fields, raw);
    if k < n {
      assert fields[k].name != fields[n].name;
      ParseReads(fields[..n], raw, k);
    }
  }

  lemma ReadsItsSlice(f: Field, raw: string)
    requires End(f) <= |raw| && f.length > 0
    ensures Read(f, raw) == ReadText(f, raw[f.start..End(f)])
  {
    assert Slice(raw, f.start, f.length) == raw[f.start..End(f)];
  }

  /** Reading a built telegram gives every field its value back exactly when the value fits the field's padding. */
  lemma TelegramRoundTrip(fields: seq<Field>, values: map<string, Value>, whole: string -> int, k: nat)
    requires Disjoint(fields) && DistinctNames(fields)
    requires (forall i :: 0 <= i < |fields| ==> PlainLayout(fields[i]) && fields[i].length > 0)
    requires Build(fields, values, whole).Some? && k < |fields|
    ensures RawOf(fields[k], values).Some?
    ensures var read := Parse(fields, Build(fields, values, whole).value);
      && read.Some? && fields[k].name in read.value
      && (read.value[fields[k].name] == Expected(fields[k], RawOf(fields[k], values).value, whole) <==>
          ComesBack(fields[k], RawOf(fields[k], values).value, whole))
  {
    var t := Build(fields, values, whole).value;
    forall i | 0 <= i < |fields|
      ensures RawOf(fields[i], values).Some? && !Read(fields[i], t).Malformed?
      ensures Read(fields[i], t) == Expected(fields[i], RawOf(fields[i], values).value, whole) <==>
          ComesBack(fields[i], RawOf(fields[i], values).value, whole)
    {
      WriteShows(fields, values, whole, LengthOf(fields), i);
      FieldReadsBackExactly(fields[i], RawOf(fields[i], values).value, whole);
      ReadsItsSlice(fields[i], t);
    }
    ParseSucceeds(fields, t);
    ParseReads(fields, t, k);
  }

  // ---------------------------------------------------------------- character by character

  predicate StandsLeft(f: Field) { f.justify == Left || (f.justify == ByKind && f.kind == Text) }

  function Filling(f: Field): char {
    match f.pad case Some(c) => c case None => if f.kind == Text then ' ' else '0'
  }

  /** The text at its end of the field, the padding character in the rest. */
  function CharAt(f: Field, text: string, q: nat): char
    requires |text| <= f.length && q < f.length
  {
    var free := f.length - |text|;
    if StandsLeft(f) then (if q < |text| then text[q] else Filling(f))
    else if q < free then Filling(f) else text[q - free]
  }

  lemma PaddedAt(f: Field, text: string, q: nat)
    requires |text| <= f.length && q < f.length
    ensures Padded(f, text)[q] == CharAt(f, text, q)
  {
    FillHas(f.length - |text|, PadOf(f));
  }

  predicate CoversPlace(f: Field, p: nat) { f.start <= p < f.start + f.length }

  /** The last field over a place decides what stands there, and a space where there is none; also when fields
      overlap. */
  lemma {:induction false} LastFieldDecides(fields: seq<Field>, values: map<string, Value>, whole: string -> int,
        length: nat, p: nat, k: nat)
    requires LengthOf(fields) <= length && p < length && Write(fields, values, whole, length).Some?
    requires k <= |fields| && (k < |fields| ==> CoversPlace(fields[k], p))
    requires forall i :: 0 <= i < |fields| && (k < |fields| ==> i > k) ==> !CoversPlace(fields[i], p)
    ensures var t := Write(fields, values, whole, length).value;
      && (k == |fields| ==> t[p] == ' ')
      && (k < |fields| ==> |Written(fields[k], values, whole)| <= fields[k].length)
      && (k < |fields| ==> t[p] == CharAt(fields[k], Written(fields[k], values, whole), p - fields[k].start))
  {
    if |fields| == 0 {
      FillHas(length, ' ');
    } else {
      var n := |fields| - 1;
      var buf, text := Write(fields[..n], values, whole, length).value, Written(fields[n], values, whole);
      WriteStep(fields, values, whole, length);
      OverwriteAt(buf, fields[n].start, Padded(fields[n], text), p);
      if k == n {
        PaddedAt(fields[n], text, p - fields[n].start);
      } else {
        assert !CoversPlace(fields[n], p);
        forall i | 0 <= i < n ensures fields[..n][i] == fields[i] {}
        LastFieldDecides(fields[..n], values, whole, length, p, if k < n then k else n);
      }
    }
  }

  /** The telegram has no text of the field: no constant, and no value given, or one too long. */
  predicate CannotWrite(f: Field, values: map<string, Value>, whole: string -> int) {
    || (f.constant == "" && f.name !in values)
    || |TextOf(f, if f.constant != "" then Chars(f.constant) else values[f.name], whole)| > f.length
  }

  ghost predicate SomeCannotWrite(fields: seq<Field>, values: map<string, Value>, whole: string -> int) {
    exists f <- fields :: CannotWrite(f, values, whole)
  }

  lemma LastIsRefused(fields: seq<Field>, values: map<string, Value>, whole: string -> int, length: nat)
    requires |fields| > 0 && LengthOf(fields) <= length && Write(fields[..|fields| - 1], values, whole, length).Some?
    ensures Write(fields, values, whole, length).None? <==> CannotWrite(fields[|fields| - 1], values, whole)
  {
  }

  lemma {:induction false} WriteIsRefusedExactly(fields: seq<Field>, values: map<string, Value>, whole: string -> int,
        length: nat)
    requires LengthOf(fields) <= length
    ensures Write(fields, values, whole, length).None? <==> SomeCannotWrite(fields, values, whole)
  {
    if |fields| > 0 {
      var n := |fields| - 1;
      WriteIsRefusedExactly(fields[..n], values, whole, length);
      assert fields == fields[..n] + [fields[n]];
      if Write(fields[..n], values, whole, length).Some? { LastIsRefused(fields, values, whole, length); }
    }
  }

  /** Field `k` is the last over the place. */
  ghost predicate IsLastOver(fields: seq<Field>, k: nat, p: nat) {
    k < |fields| && CoversPlace(fields[k], p) && forall i :: k < i < |fields| ==> !CoversPlace(fields[i], p)
  }

  /** A telegram is refused if and only if it has no fields, or one that cannot be written; else it is as long as its
      furthest field, and the last field over each place decides what stands there. */
  lemma BuildIsExact(fields: seq<Field>, values: map<string, Value>, whole: string -> int, p: nat, k: nat)
    ensures Build(fields, values, whole).None? <==>
        fields == [] || SomeCannotWrite(fields, values, whole)
    ensures Build(fields, values, whole).Some? && IsLastOver(fields, k, p) ==>
        p < |Build(fields, values, whole).value| && |Written(fields[k], values, whole)| <= fields[k].length
    ensures Build(fields, values, whole).Some? && IsLastOver(fields, k, p) ==>
        Build(fields, values, whole).value[p] ==
          CharAt(fields[k], Written(fields[k], values, whole), p - fields[k].start)
  {
    WriteIsRefusedExactly(fields, values, whole, LengthOf(fields));
    if Build(fields, values, whole).Some? && IsLastOver(fields, k, p) {
      LongestEnd(fields, k);
      LastFieldDecides(fields, values, whole, LengthOf(fields), p, k);
    }
  }

  // ---------------------------------------------------------------- what is read

  function Least(a: nat, b: nat): nat { if a <= b then a else b }

  /** The field's place in the telegram, as far as it goes, without spaces around. */
  function TextAt(f: Field, raw: string): string {
    Trim(raw[Least(f.start, |raw|)..Least(f.start + f.length, |raw|)])
  }

  /** Digits behind that many minus signs. */
  predicate IsMinused(text: string, m: nat) {
    m < |text| && (forall i :: 0 <= i < m ==> text[i] == '-') && AllDigits(text[m..])
  }

  /** Just so many minus signs stand first. */
  predicate BeginsWith(text: string, m: nat) {
    m <= |text| && (forall i :: 0 <= i < m ==> text[i] == '-') && (m < |text| ==> text[m] != '-')
  }

  lemma {:induction false} WithoutMinusIs(text: string) returns (m: nat)
    ensures BeginsWith(text, m) && WithoutMinus(text) == text[m..]
    decreases |text|
  {
    if |text| > 0 && text[0] == '-' {
      var rest := WithoutMinusIs(text[1..]);
      m := rest + 1;
      assert text[1..][rest..] == text[m..];
      forall i | 0 <= i < m ensures text[i] == '-' { if i > 0 { assert text[i] == text[1..][i - 1]; } }
    } else {
      m := 0;
    }
  }

  lemma MinusedIs(text: string, m: nat)
    requires IsMinused(text, m)
    ensures WithoutMinus(text) == text[m..] && IsNumber(text[m..])
  {
    var n := WithoutMinusIs(text);
    assert text[m..][0] == text[m] && IsDigit(text[m]);
    assert m <= n <= m;
  }

  lemma NumberIsMinused(text: string) returns (m: nat)
    requires IsNumber(WithoutMinus(text))
    ensures IsMinused(text, m)
  {
    m := WithoutMinusIs(text);
  }

  /** With at most one minus sign a whole number. */
  function MinusedValue(text: string, m: nat): Reading
    requires m <= |text|
  {
    if m == 0 then Whole(Texts.Number(text)) else if m == 1 then Whole(0 - Texts.Number(text[1..])) else Malformed
  }

  lemma WholeIs(text: string, m: nat)
    requires IsMinused(text, m)
    ensures ToWhole(text) == MinusedValue(text, m)
  {
    assert m == 0 ==> text[0..] == text;
    if m > 0 { assert text[0] == '-' && !IsDigit(text[0]); }
    if m > 1 { assert text[1..][0] == '-'; }
  }

  /** An empty field reads as nothing and a text as it stands; digits, with a minus sign or without, read as a whole
      number and cannot be read behind several; anything else of a number goes to the decimals. */
  lemma ReadIs(f: Field, raw: string, m: nat)
    ensures var text := TextAt(f, raw);
      && (text == "" || f.kind == Text ==> Read(f, raw) == Plain(text))
      && (text != "" && f.kind == Decimals ==> Read(f, raw) == Fraction(text))
      && (f.kind == Integer && IsMinused(text, m) ==> Read(f, raw) == MinusedValue(text, m))
      && (f.kind == Integer && text != "" && (forall n: nat :: !IsMinused(text, n)) ==> Read(f, raw) == Fraction(text))
  {
    var text := TextAt(f, raw);
    assert Slice(raw, f.start, f.length) == raw[Least(f.start, |raw|)..Least(f.start + f.length, |raw|)];
    if IsMinused(text, m) {
      MinusedIs(text, m);
      WholeIs(text, m);
    }
    if IsNumber(WithoutMinus(text)) { var n := NumberIsMinused(text); }
  }

  ghost predicate SomeMalformed(fields: seq<Field>, raw: string) { exists f <- fields :: Read(f, raw).Malformed? }

  /** Reading fails if and only if a field is malformed; else every field is there, and nothing else. */
  lemma {:induction false} ParseIsExact(fields: seq<Field>, raw: string)
    ensures Parse(fields, raw).None? <==> SomeMalformed(fields, raw)
    ensures Parse(fields, raw).Some? ==> Parse(fields, raw).value.Keys == set f <- fields :: f.name
  {
    if |fields| > 0 {
      var n := |fields| - 1;
      ParseIsExact(fields[..n], raw);
      assert fields == fields[..n] + [fields[n]];
      if Parse(fields, raw).Some? { ParseStep(fields, raw); }
    }
  }
}
