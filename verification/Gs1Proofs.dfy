/** Which texts are GS1 element strings at all, and what they say. */
module Gs1Proofs {
  import opened Basics
  import opened Texts
  import opened Gs1

  // ---------------------------------------------------------------- the application identifiers

  predicate Printable(s: string) { forall i :: 0 <= i < |s| ==> ' ' <= s[i] <= '~' }

  /** The values that each application identifier allows. */
  predicate Allowed(ai: string, value: string) {
    || (ai == "00" && |value| == 18 && AllDigits(value))
    || (ai in {"01", "02"} && |value| == 14 && AllDigits(value))
    || (ai in {"11", "15", "17"} && |value| == 6 && AllDigits(value))
    || (ai in {"10", "21"} && |value| <= 20 && Printable(value))
    || (ai in {"30", "37"} && |value| <= 8 && Printable(value))
  }

  const NAMES: map<string, string> := map["00" := "sscc", "01" := "gtin", "02" := "content_gtin", "10" := "batch",
    "11" := "production_date", "15" := "best_before", "17" := "expiry", "21" := "serial", "30" := "count",
    "37" := "count"]

  /** The identifiers known, their names, and what they allow. */
  lemma IdentifiersAre(ai: string, value: string)
    ensures FieldOf(ai).Some? <==> ai in NAMES
    ensures ai in NAMES ==> NameOf(Element(ai, value)) == NAMES[ai]
    ensures Legal(Element(ai, value)) <==> Allowed(ai, value)
    ensures FieldOf(ai).Some? && FieldOf(ai).value.Variable? <==> ai in {"10", "21", "30", "37"}
  {
    var e := Element(ai, value);
    if ai == "00" {
      assert NAMES["00"] == "sscc" && NameOf(e) == "sscc";
    } else if ai == "01" || ai == "02" {
      assert NAMES["01"] == "gtin" && NAMES["02"] == "content_gtin";
    } else if ai == "11" || ai == "15" {
      assert NAMES["11"] == "production_date" && NAMES["15"] == "best_before";
    } else if ai == "17" {
      assert NAMES["17"] == "expiry";
    } else if ai == "10" || ai == "21" {
      assert NAMES["10"] == "batch" && NAMES["21"] == "serial";
    } else if ai == "30" || ai == "37" {
      assert NAMES["30"] == "count" && NAMES["37"] == "count";
    } else {
      assert FieldOf(ai).None? && ai !in NAMES;
    }
  }

  // ---------------------------------------------------------------- the grammar

  /** The value may be followed by this: one of open length goes on as far as it may. */
  predicate MayFollow(e: Element, rest: string) {
    e.ai in {"10", "21", "30", "37"} ==>
      rest == "" || rest[0] == GS || |e.value| == (if e.ai in {"10", "21"} then 20 else 8)
  }

  /** The text is made up of the fields, each an identifier and an allowed value, with separators anywhere between. */
  ghost predicate IsMadeOf(s: string, es: seq<Element>)
    decreases |s|
  {
    if |s| == 0 then es == []
    else if s[0] == GS then IsMadeOf(s[1..], es)
    else
      && |es| > 0 && Allowed(es[0].ai, es[0].value)
      && es[0].ai + es[0].value <= s
      && var rest := s[|es[0].ai + es[0].value|..];
        |rest| < |s| && MayFollow(es[0], rest) && IsMadeOf(rest, es[1..])
  }

  lemma {:induction false} UpToIs(s: string, stop: char)
    ensures var n := UpTo(s, stop); (forall i :: 0 <= i < n ==> s[i] != stop) && (n < |s| ==> s[n] == stop)
  {
    if |s| > 0 && s[0] != stop {
      UpToIs(s[1..], stop);
      forall i | 0 <= i < UpTo(s, stop) ensures s[i] != stop { if i > 0 { assert s[i] == s[1..][i - 1]; } }
    }
  }

  /** What the scan takes off the head of the text is a field that may stand there. */
  lemma PieceIsField(s: string) returns (e: Element)
    requires |s| > 0 && Scannable(s) && HeadOf(s).Piece?
    ensures e.value == HeadOf(s).value && NameOf(e) == HeadOf(s).name && Allowed(e.ai, e.value)
    ensures |e.ai| == 2 && e.ai + e.value <= s && MayFollow(e, s[2 + |e.value|..]) && s[0] != GS
  {
    var h := HeadOf(s);
    e := Element(s[..2], h.value);
    IdentifiersAre(e.ai, e.value);
    UpToIs(s[2..], GS);
    assert s[..2] + h.value == s[..2 + |h.value|] by {
      assert s[2..2 + |h.value|] == h.value;
    }
    forall i | 0 <= i < |h.value| && FieldOf(e.ai).value.Variable? ensures ' ' <= h.value[i] <= '~' {
      assert h.value[i] == s[2..][i] == s[2 + i];
    }
    if FieldOf(e.ai).value.Variable? && 2 + |h.value| < |s| { assert s[2..][|h.value|] == s[2 + |h.value|]; }
  }

  /** The other way round: a field that may stand there is what the scan takes. */
  lemma FieldIsPiece(s: string, e: Element)
    requires |s| > 0 && s[0] != GS && Allowed(e.ai, e.value) && e.ai + e.value <= s
    requires MayFollow(e, s[|e.ai + e.value|..])
    ensures HeadOf(s) == Piece(NameOf(e), e.value) && |e.ai| == 2
  {
    IdentifiersAre(e.ai, e.value);
    var n := |e.value|;
    assert s[..2] == e.ai && s[2..2 + n] == e.value;
    UpToIs(s[2..], GS);
    forall i | 0 <= i < n ensures s[2..][i] == e.value[i] { assert s[2..2 + n][i] == s[2 + i]; }
    if FieldOf(e.ai).value.Variable? && 2 + n < |s| { assert s[2..][n] == s[2 + n]; }
  }

  lemma {:induction false} ScanIsSound(s: string, out: Values) returns (es: seq<Element>)
    requires Scannable(s) && Scan(s, out).Some?
    ensures IsMadeOf(s, es) && Scan(s, out).value == ValuesOf(es, out)
    decreases |s|
  {
    if |s| == 0 {
      es := [];
    } else if s[0] == GS {
      es := ScanIsSound(s[1..], out);
    } else {
      var e := PieceIsField(s);
      var more := ScanIsSound(s[2 + |e.value|..], out[NameOf(e) := e.value]);
      es := [e] + more;
      assert es[1..] == more;
    }
  }

  lemma {:induction false} ScanIsComplete(s: string, es: seq<Element>, out: Values)
    requires IsMadeOf(s, es)
    ensures Scan(s, out) == Some(ValuesOf(es, out))
    decreases |s|
  {
    if |s| > 0 {
      if s[0] == GS {
        ScanIsComplete(s[1..], es, out);
      } else {
        FieldIsPiece(s, es[0]);
        ScanIsComplete(s[2 + |es[0].value|..], es[1..], out[NameOf(es[0]) := es[0].value]);
      }
    }
  }

  /** The text tells enough: two different fields, an SSCC, or a GTIN and nothing else. */
  predicate TellsEnough(out: Values, length: nat) {
    |out| > 1 || ("sscc" in out && out["sscc"] != "") || (length == 16 && "gtin" in out && out["gtin"] != "")
  }

  /** A scanned text is accepted if and only if it begins with an identifier, has only printable characters and
      separators, is made up of fields, and tells enough; then it says what its fields say. */
  lemma ScannedIsAcceptedExactly(s: string, out: Values)
    ensures ParseScanned(s) == Some(out) <==>
      && |s| >= 2 && s[..2] in NAMES && (forall i :: 0 <= i < |s| ==> ' ' <= s[i] <= '~' || s[i] == GS)
      && TellsEnough(out, |s|) && exists es :: IsMadeOf(s, es) && out == ValuesOf(es, map[])
  {
    if |s| >= 2 { IdentifiersAre(s[..2], ""); }
    if Scannable(s) && Scan(s, map[]).Some? { var es := ScanIsSound(s, map[]); }
    if es :| IsMadeOf(s, es) && out == ValuesOf(es, map[]) { ScanIsComplete(s, es, map[]); }
  }

  /** One field alone is accepted if and only if it is an SSCC or a GTIN. */
  lemma OneFieldIsAcceptedExactly(e: Element)
    requires Allowed(e.ai, e.value) && EndsSolid(e.value)
    ensures Parse(Encode([e])).Some? <==> e.ai in {"00", "01"}
  {
    var es := [e];
    IdentifiersAre(e.ai, e.value);
    SolidReadsEncoding(es);
    assert es[1..] == [] && Encode(es) == e.ai + e.value + "" + "";
    assert ValuesOf(es, map[]) == map[NameOf(e) := e.value];
  }

  /** A symbology identifier that the scanner puts in front changes nothing. */
  lemma SymbologyIsDropped(prefix: string, s: string)
    requires prefix in {"]C1", "]e0", "]d2", "]Q3"} && s != "" && s[0] != ']' && Trim(s) == s
    ensures Parse(prefix + s) == Parse(s)
  {
    var all := prefix + s;
    assert all[..3] == prefix && all[3..] == s;
    NothingStripped(s);
    SolidEnds(s);
    assert all[|all| - 1] == s[|s| - 1];
    TrimIsIdentity(all);
  }

  lemma SolidEnds(s: string)
    requires s != "" && Trim(s) == s
    ensures EndsSolid(s)
  {
    TrimRightIs(TrimLeft(s));
  }

  // ---------------------------------------------------------------- the typed form

  function Trimmed(es: seq<Element>): (r: seq<Element>)
    ensures |r| == |es|
  {
    seq(|es|, i requires 0 <= i < |es| => es[i].(value := Trim(es[i].value)))
  }

  /** Two to four digits, and a value without a bracket. */
  predicate IsGroup(e: Element) { 2 <= |e.ai| <= 4 && AllDigits(e.ai) && '(' !in e.value }

  lemma GroupIs(e: Element, rest: string)
    requires IsGroup(e)
    ensures Group("(" + e.ai + ")" + e.value + rest) == Some(e.ai)
  {
    var s, n := "(" + e.ai + ")" + e.value + rest, |e.ai|;
    assert s[1..1 + n] == e.ai && s[1 + n] == ')' && !IsDigit(')');
    assert forall i :: 1 <= i <= n ==> s[i] == e.ai[i - 1] && IsDigit(s[i]);
    assert s[3] == ')' <==> n == 2;
    assert n > 2 ==> (s[4] == ')' <==> n == 3);
  }

  lemma TypedTakesGroup(e: Element, rest: string, out: Values)
    requires IsGroup(e) && (rest == "" || rest[0] == '(')
    ensures Typed("(" + e.ai + ")" + e.value + rest, out) ==
        if e.ai in NAMES then Typed(rest, out[NAMES[e.ai] := Trim(e.value)]) else None
  {
    var s := "(" + e.ai + ")" + e.value + rest;
    GroupIs(e, rest);
    IdentifiersAre(e.ai, e.value);
    var after := s[|e.ai| + 2..];
    assert after == e.value + rest;
    UpToStop(e.value, rest, '(');
    assert after[..|e.value|] == e.value && after[|e.value|..] == rest;
  }

  /** Groups in brackets are read if and only if all of them are known; the values come without spaces around. */
  lemma {:induction false} TypedReadsExactly(es: seq<Element>, out: Values)
    requires forall i :: 0 <= i < |es| ==> IsGroup(es[i])
    ensures Typed(Print(es), out) ==
        if forall i :: 0 <= i < |es| ==> es[i].ai in NAMES then Some(ValuesOf(Trimmed(es), out)) else None
    decreases |es|
  {
    if |es| > 0 {
      PrintStarts(es[1..]);
      TypedTakesGroup(es[0], Print(es[1..]), out);
      if es[0].ai in NAMES {
        IdentifiersAre(es[0].ai, Trim(es[0].value));
        TypedReadsExactly(es[1..], out[NAMES[es[0].ai] := Trim(es[0].value)]);
        assert Trimmed(es)[1..] == Trimmed(es[1..]);
      }
    }
  }

  // ---------------------------------------------------------------- variants of a GTIN

  lemma {:induction false} ShortenedAre(code: string, x: string)
    ensures x in Shortened(code) <==>
        8 <= |x| < |code| && Zeros(|code| - |x|) + x == code
    decreases |code|
  {
    if |code| > 8 && code[0] == '0' {
      ShortenedAre(code[1..], x);
      if x == code[1..] { assert Zeros(1) == "0" && "0" + x == code; }
      if 8 <= |x| < |code| - 1 {
        var n: nat := |code| - |x|;
        assert Zeros(n) + x == "0" + (Zeros(n - 1) + x);
        assert code == [code[0]] + code[1..];
      }
      if 8 <= |x| == |code| - 1 { assert Zeros(1) + x == "0" + x && code == [code[0]] + code[1..]; }
    } else if 8 <= |x| < |code| {
      assert Zeros(|code| - |x|)[0] == '0';
      assert (Zeros(|code| - |x|) + x)[0] == '0';
    }
  }

  /** The variants are the code itself, what is left of it without some of its leading zeros down to eight digits, and
      an EAN or UPC filled up to fourteen digits; none of them twice. */
  lemma VariantsAreExactly(code: string, x: string)
    ensures x in GtinVariants(code) <==>
      || x == code
      || (8 <= |x| < |code| && Zeros(|code| - |x|) + x == code)
      || (|code| in {8, 12, 13} && AllDigits(code) && x == ZeroFilled(code, 14))
  {
    DedupKeeps([code] + Shortened(code) + if IsShortGtin(code) then [ZeroFilled(code, 14)] else []);
    ShortenedAre(code, x);
  }

  lemma {:induction false} DedupIsDistinct(s: seq<string>)
    ensures forall i, j :: 0 <= i < j < |Dedup(s)| ==> Dedup(s)[i] != Dedup(s)[j]
  {
    if |s| != 0 {
      DedupIsDistinct(s[..|s| - 1]);
      DedupKeeps(s[..|s| - 1]);
    }
  }

  lemma {:induction false} DedupKeepsFirst(s: seq<string>)
    requires |s| > 0
    ensures |Dedup(s)| > 0 && Dedup(s)[0] == s[0]
  {
    if |s| > 1 { DedupKeepsFirst(s[..|s| - 1]); }
  }

  lemma VariantsAreListedOnce(code: string)
    ensures |GtinVariants(code)| > 0 && GtinVariants(code)[0] == code
    ensures forall i, j :: 0 <= i < j < |GtinVariants(code)| ==> GtinVariants(code)[i] != GtinVariants(code)[j]
  {
    var all := [code] + Shortened(code) + if IsShortGtin(code) then [ZeroFilled(code, 14)] else [];
    DedupIsDistinct(all);
    DedupKeepsFirst(all);
  }
}
