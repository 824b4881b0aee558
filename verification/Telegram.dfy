/** Telegrams of a fixed layout: building one from values, and reading the values back. */
module Telegram {
  import opened Basics
  import opened Texts

  datatype Kind = Text | Integer | Decimals

  datatype Justify = ByKind | Left | Right

  /** An empty constant is none; without a padding character the kind decides. */
  datatype Field = Field(name: string, start: nat, length: nat, kind: Kind, constant: string, pad: Option<char>,
      justify: Justify)

  datatype Value = Number(n: int) | Chars(s: string)

  /** What a field reads as; `Malformed` is a text that no number can be made of. */
  datatype Reading = Whole(n: int) | Fraction(text: string) | Plain(text: string) | Malformed

  function Signed(n: int): (s: string)
    ensures |s| > 0
  {
    if n < 0 then "-" + Decimal(-n) else Decimal(n)
  }

  predicate Numeric(f: Field) { f.kind == Integer || f.kind == Decimals }

  function PadOf(f: Field): char { match f.pad case Some(c) => c case None => if Numeric(f) then '0' else ' ' }

  predicate ToTheLeft(f: Field) { match f.justify case ByKind => !Numeric(f) case Left => true case Right => false }

  /** A text of one character repeated. */
  function Fill(n: nat, c: char): (s: string)
    ensures |s| == n
  {
    if n == 0 then "" else [c] + Fill(n - 1, c)
  }

  function Padded(f: Field, text: string): (s: string)
    requires |text| <= f.length
    ensures |s| == f.length
  {
    var filler := Fill(f.length - |text|, PadOf(f));
    if ToTheLeft(f) then text + filler else filler + text
  }

  /** `whole` makes an integer of a text, as Frappe's conversions do. */
  function TextOf(f: Field, v: Value, whole: string -> int): string {
    match v
    case Number(n) => Signed(n)
    case Chars(s) => if f.kind == Integer then Signed(whole(s)) else s
  }

  function RawOf(f: Field, values: map<string, Value>): Option<Value> {
    if f.constant != "" then Some(Chars(f.constant)) else if f.name in values then Some(values[f.name]) else None
  }

  function End(f: Field): nat { f.start + f.length }

  function LengthOf(fields: seq<Field>): nat {
    if |fields| == 0 then 0
    else
      var before := LengthOf(fields[..|fields| - 1]);
      if End(fields[|fields| - 1]) > before then End(fields[|fields| - 1]) else before
  }

  function Overwrite(buf: string, start: nat, text: string): (r: string)
    requires start + |text| <= |buf|
    ensures |r| == |buf|
  {
    buf[..start] + text + buf[start + |text|..]
  }

  /** One field written into the telegram; None where its value is missing or too long. */
  function Stamp(f: Field, values: map<string, Value>, whole: string -> int, buf: string): (r: Option<string>)
    requires End(f) <= |buf|
    ensures r.Some? ==> |r.value| == |buf|
  {
    match RawOf(f, values)
    case None => None
    case Some(v) =>
      var text := TextOf(f, v, whole);
      if |text| > f.length then None else Some(Overwrite(buf, f.start, Padded(f, text)))
  }

  /** The fields written over spaces, in order. */
  function Write(fields: seq<Field>, values: map<string, Value>, whole: string -> int, length: nat): (r: Option<string>)
    requires LengthOf(fields) <= length
    ensures r.Some? ==> |r.value| == length
  {
    var n := |fields| - 1;
    if |fields| == 0 then Some(Fill(length, ' '))
    else match Write(fields[..n], values, whole, length) case None => None
        case Some(buf) => Stamp(fields[n], values, whole, buf)
  }

  /** A layout without fields has no length. */
  function Build(fields: seq<Field>, values: map<string, Value>, whole: string -> int): Option<string> {
    if |fields| == 0 then None else Write(fields, values, whole, LengthOf(fields))
  }

  // ---------------------------------------------------------------- reading

  function Slice(raw: string, start: nat, length: nat): string {
    if start >= |raw| then "" else if start + length >= |raw| then raw[start..] else raw[start..start + length]
  }

  function WithoutMinus(s: string): string
    decreases |s|
  {
    if |s| > 0 && s[0] == '-' then WithoutMinus(s[1..]) else s
  }

  predicate IsNumber(s: string) { |s| > 0 && AllDigits(s) }

  /** `int(s)`: digits with at most one minus sign. */
  function ToWhole(s: string): Reading {
    if IsNumber(s) then Whole(Texts.Number(s))
    else if |s| > 0 && s[0] == '-' && IsNumber(s[1..]) then Whole(0 - Texts.Number(s[1..]))
    else Malformed
  }

  function Read(f: Field, raw: string): Reading {
    var text := Trim(Slice(raw, f.start, f.length));
    if text == "" then Plain(text)
    else
      match f.kind
      case Text => Plain(text)
      case Decimals => Fraction(text)
      case Integer => if IsNumber(WithoutMinus(text)) then ToWhole(text) else Fraction(text)
  }

  /** The fields by name, the last one of a name; None when one is malformed. */
  function Parse(fields: seq<Field>, raw: string): Option<map<string, Reading>> {
    var n := |fields| - 1;
    if |fields| == 0 then Some(map[])
    else
      match Parse(fields[..n], raw)
      case None => None
      case Some(out) =>
        if Read(fields[n], raw).Malformed? then None else Some(out[fields[n].name := Read(fields[n], raw)])
  }

  // ---------------------------------------------------------------- in place

  method BuildTelegram(fields: seq<Field>, values: map<string, Value>,
        whole: string -> int) returns (telegram: Option<string>)
    ensures telegram == Build(fields, values, whole)
  {
    if |fields| == 0 { return None; }
    var length := LongestReach(fields);
    var buf := Blank(length);
    for i := 0 to |fields|
      invariant LengthOf(fields[..i]) <= length && Write(fields[..i], values, whole, length) == Some(buf[..])
    {
      EndsWithin(fields, i, length);
      assert fields[..i + 1][..i] == fields[..i];
      var ok := PutField(buf, fields[i], values, whole);
      if !ok {
        WriteFails(fields, values, whole, length, i + 1);
        return None;
      }
    }
    assert fields[..|fields|] == fields;
    telegram := Some(buf[..]);
  }

  method LongestReach(fields: seq<Field>) returns (length: nat)
    ensures length == LengthOf(fields)
  {
    length := 0;
    for i := 0 to |fields|
      invariant length == LengthOf(fields[..i])
    {
      assert fields[..i + 1][..i] == fields[..i];
      if End(fields[i]) > length { length := End(fields[i]); }
    }
    assert fields[..|fields|] == fields;
  }

  method Blank(length: nat) returns (buf: array<char>)
    ensures fresh(buf) && buf[..] == Fill(length, ' ')
  {
    buf := new char[length](_ => ' ');
    FillIs(buf[..], ' ');
  }

  method PutField(buf: array<char>, f: Field, values: map<string, Value>, whole: string -> int) returns (ok: bool)
    requires End(f) <= buf.Length
    modifies buf
    ensures Stamp(f, values, whole, old(buf[..])) == if ok then Some(buf[..]) else None
  {
    var raw := RawOf(f, values);
    if raw.None? { return false; }
    var text := TextOf(f, raw.value, whole);
    if |text| > f.length { return false; }
    PutText(buf, f.start, Padded(f, text));
    ok := true;
  }

  method PutText(buf: array<char>, start: nat, text: string)
    requires start + |text| <= buf.Length
    modifies buf
    ensures buf[..] == Overwrite(old(buf[..]), start, text)
  {
    for k := 0 to |text|
      invariant forall j ::
          0 <= j < buf.Length ==> buf[j] == if start <= j < start + k then text[j - start] else old(buf[j])
    {
      buf[start + k] := text[k];
    }
  }

  method ParseTelegram(fields: seq<Field>, raw: string) returns (out: Option<map<string, Reading>>)
    ensures out == Parse(fields, raw)
  {
    var read: map<string, Reading> := map[];
    for i := 0 to |fields|
      invariant Parse(fields[..i], raw) == Some(read)
    {
      assert fields[..i + 1][..i] == fields[..i];
      var reading := Read(fields[i], raw);
      if reading.Malformed? {
        ParseFails(fields, raw, i + 1);
        return None;
      }
      read := read[fields[i].name := reading];
    }
    assert fields[..|fields|] == fields;
    out := Some(read);
  }

  lemma {:induction false} FillIs(s: string, c: char)
    requires forall i :: 0 <= i < |s| ==> s[i] == c
    ensures s == Fill(|s|, c)
  {
    if |s| != 0 { FillIs(s[1..], c); }
  }

  lemma {:induction false} FillHas(n: nat, c: char)
    ensures forall i :: 0 <= i < n ==> Fill(n, c)[i] == c
  {
    if n != 0 { FillHas(n - 1, c); }
  }

  lemma {:induction false} LongestEnd(fields: seq<Field>, i: nat)
    requires i < |fields|
    ensures End(fields[i]) <= LengthOf(fields) && LengthOf(fields[..i]) <= LengthOf(fields)
  {
    var n := |fields| - 1;
    if i < n {
      LongestEnd(fields[..n], i);
      assert fields[..n][..i] == fields[..i];
    }
  }

  lemma EndsWithin(fields: seq<Field>, i: nat, length: nat)
    requires i < |fields| && length == LengthOf(fields)
    ensures LengthOf(fields[..i + 1]) <= length && End(fields[i]) <= length
  {
    LongestEnd(fields, i);
    if i + 1 < |fields| { LongestEnd(fields, i + 1); } else { assert fields[..i + 1] == fields; }
  }

  lemma {:induction false} WriteFails(fields: seq<Field>, values: map<string, Value>, whole: string -> int, length: nat,
        i: nat)
    requires i <= |fields| && LengthOf(fields[..i]) <= length && LengthOf(fields) <= length
    requires Write(fields[..i], values, whole, length).None?
    ensures Write(fields, values, whole, length).None?
    decreases |fields| - i
  {
    if i == |fields| {
      assert fields[..i] == fields;
    } else {
      assert fields[..i + 1][..i] == fields[..i];
      if i + 1 < |fields| { LongestEnd(fields, i + 1); } else { assert fields[..i + 1] == fields; }
      WriteFails(fields, values, whole, length, i + 1);
    }
  }

  lemma {:induction false} ParseFails(fields: seq<Field>, raw: string, i: nat)
    requires i <= |fields| && Parse(fields[..i], raw).None?
    ensures Parse(fields, raw).None?
    decreases |fields| - i
  {
    if i == |fields| {
      assert fields[..i] == fields;
    } else {
      assert fields[..i + 1][..i] == fields[..i];
      ParseFails(fields, raw, i + 1);
    }
  }
}
