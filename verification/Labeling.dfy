/** Serial Shipping Container Codes for handling units. */
module Labeling {
  import opened Basics
  import opened Texts

  /** The next weight to the left: 3 and 1 in turn. */
  function Other(weight: nat): nat { if weight == 3 then 1 else 3 }

  /** The weighted sum of the digits, the rightmost one weighing `weight`. */
  function Weighted(s: string, weight: nat): nat {
    if |s| == 0 then 0 else weight * ValueOf(s[|s| - 1]) + Weighted(s[..|s| - 1], Other(weight))
  }

  function CheckDigit(digits: string): (c: nat)
    ensures c < 10
  {
    (10 - Weighted(digits, 3) % 10) % 10
  }

  method ComputeCheckDigit(digits: string) returns (c: nat)
    ensures c == CheckDigit(digits)
  {
    var total: nat, weight: nat, n: nat := 0, 3, |digits|;
    assert digits[..n] == digits;
    while n > 0
      invariant n <= |digits| && total + Weighted(digits[..n], weight) == Weighted(digits, 3)
    {
      assert digits[..n][..n - 1] == digits[..n - 1];
      total := total + weight * ValueOf(digits[n - 1]);
      weight, n := Other(weight), n - 1;
    }
    c := (10 - total % 10) % 10;
  }

  /** A code whose last digit checks the others. */
  predicate IsValid(code: string) { |code| == 18 && AllDigits(code) && Weighted(code, 1) % 10 == 0 }

  /** The prefix used when none is set. */
  const DefaultPrefix: string := "0614141"

  function Sscc(prefix: string, serial: nat): (code: string)
    requires |prefix| < 16
  {
    var body := "0" + prefix + ZeroFilled(Decimal(serial), 16 - |prefix|);
    body + [DigitOf(CheckDigit(body))]
  }

  /** `units`: the handling units and their codes, empty for none. */
  datatype State = State(setting: string, lastSerial: nat, units: map<string, string>)

  function PrefixOf(s: State): string { Trim(if s.setting == "" then DefaultPrefix else s.setting) }

  predicate UsablePrefix(prefix: string) { 0 < |prefix| < 16 && AllDigits(prefix) }

  predicate FitsSerial(prefix: string, serial: nat) { |Decimal(serial)| + |prefix| <= 16 }

  /** A refusal takes the serial back as well. */
  function Generate(s: State, unit: string): Option<(State, string)> {
    if unit !in s.units then None
    else if s.units[unit] != "" then Some((s, s.units[unit]))
    else if !UsablePrefix(PrefixOf(s)) || !FitsSerial(PrefixOf(s), s.lastSerial + 1) then None
    else
      var code := Sscc(PrefixOf(s), s.lastSerial + 1);
      Some((s.(lastSerial := s.lastSerial + 1, units := s.units[unit := code]), code))
  }

  class Labels {
    var setting: string
    var lastSerial: nat
    var units: map<string, string>

    function Current(): State
      reads this
    {
      State(setting, lastSerial, units)
    }

    constructor (s: State)
      ensures Current() == s
    {
      setting, lastSerial, units := s.setting, s.lastSerial, s.units;
    }

    method GenerateSscc(unit: string) returns (code: Option<string>)
      modifies this
      ensures match Generate(old(Current()), unit)
        case None => code == None && Current() == old(Current())
        case Some(next) => code == Some(next.1) && Current() == next.0
    {
      if unit !in units { return None; }
      if units[unit] != "" { return Some(units[unit]); }
      var prefix := Trim(if setting == "" then DefaultPrefix else setting);
      if !UsablePrefix(prefix) { return None; }
      var serial := ZeroFilled(Decimal(lastSerial + 1), 16 - |prefix|);
      if |serial| > 16 - |prefix| { return None; }
      var body := "0" + prefix + serial;
      var check := ComputeCheckDigit(body);
      lastSerial := lastSerial + 1;
      units := units[unit := body + [DigitOf(check)]];
      code := Some(units[unit]);
    }
  }

  // ---------------------------------------------------------------- soundness

  lemma DigitHasValue(d: nat)
    requires d < 10
    ensures ValueOf(DigitOf(d)) == d
  {
  }

  /** Every code has 18 digits and a weighted sum that ten divides. */
  lemma SsccIsValid(prefix: string, serial: nat)
    requires UsablePrefix(prefix) && FitsSerial(prefix, serial)
    ensures IsValid(Sscc(prefix, serial))
  {
    var filled := ZeroFilled(Decimal(serial), 16 - |prefix|);
    var body := "0" + prefix + filled;
    var code := Sscc(prefix, serial);
    ZeroFilledReadsBack(serial, 16 - |prefix|);
    assert |body| == 17 && AllDigits(body);
    assert code[..17] == body && code[17] == DigitOf(CheckDigit(body));
    DigitHasValue(CheckDigit(body));
    assert Weighted(code, 1) == CheckDigit(body) + Weighted(body, 3);
  }

  /** For one prefix, different serials give different codes. */
  lemma SsccIsInjective(prefix: string, m: nat, n: nat)
    requires UsablePrefix(prefix) && FitsSerial(prefix, m) && FitsSerial(prefix, n)
    requires Sscc(prefix, m) == Sscc(prefix, n)
    ensures m == n
  {
    SerialPart(prefix, m);
    SerialPart(prefix, n);
    ZeroFilledReadsBack(m, 16 - |prefix|);
    ZeroFilledReadsBack(n, 16 - |prefix|);
  }

  lemma SerialPart(prefix: string, n: nat)
    requires UsablePrefix(prefix) && FitsSerial(prefix, n)
    ensures |Sscc(prefix, n)| == 18 && Sscc(prefix, n)[1 + |prefix|..17] == ZeroFilled(Decimal(n), 16 - |prefix|)
  {
  }

  /** The digits summed up from the left, the even places weighing three. */
  function WeighedFromLeft(code: string, n: nat): nat
    requires n <= |code|
  {
    if n == 0 then 0
    else WeighedFromLeft(code, n - 1) + (if n % 2 == 1 then 3 else 1) * ValueOf(code[n - 1])
  }

  lemma {:induction false} SameWeights(code: string, n: nat)
    requires 0 < n <= |code|
    ensures Weighted(code[..n], if n % 2 == 1 then 3 else 1) == WeighedFromLeft(code, n)
  {
    assert code[..n][..n - 1] == code[..n - 1];
    if n > 1 { SameWeights(code, n - 1); } else { assert code[..0] == ""; }
  }

  /** A zero, the prefix, the serial filled up with zeros, and a digit that makes the weighted sum one of tens. */
  ghost predicate IsCodeOf(code: string, prefix: string, serial: nat) {
    && |code| == 18 && AllDigits(code) && |prefix| < 16
    && code[0] == '0' && code[1..1 + |prefix|] == prefix && Number(code[1 + |prefix|..17]) == serial
    && WeighedFromLeft(code, 18) % 10 == 0
  }

  lemma SsccIs(prefix: string, serial: nat)
    requires UsablePrefix(prefix) && FitsSerial(prefix, serial)
    ensures IsCodeOf(Sscc(prefix, serial), prefix, serial)
  {
    var code := Sscc(prefix, serial);
    SsccIsValid(prefix, serial);
    SerialPart(prefix, serial);
    ZeroFilledReadsBack(serial, 16 - |prefix|);
    assert code[..18] == code;
    SameWeights(code, 18);
  }

  /** A unit keeps its code. Else it gets that of the next serial, unless the prefix is not made of one to fifteen
      digits or the serial too long for what is left; then nothing is used up. */
  lemma GenerateIsExact(s: State, unit: string)
    ensures var prefix := Trim(if s.setting == "" then "0614141" else s.setting); var serial := s.lastSerial + 1;
      match Generate(s, unit)
      case None =>
        unit !in s.units || (s.units[unit] == "" &&
          !(AllDigits(prefix) && 1 <= |prefix| <= 15 && |prefix| + |Decimal(serial)| <= 16))
      case Some((next, code)) =>
        unit in s.units &&
        if s.units[unit] != "" then next == s && code == s.units[unit]
        else IsCodeOf(code, prefix, serial) && next == State(s.setting, serial, s.units[unit := code])
  {
    var prefix, serial := PrefixOf(s), s.lastSerial + 1;
    if UsablePrefix(prefix) && FitsSerial(prefix, serial) { SsccIs(prefix, serial); }
  }

  // ---------------------------------------------------------------- what the check digit catches

  function WeightAt(length: nat, i: nat, weight: nat): nat
    requires i < length
    decreases length
  {
    if i == length - 1 then weight else WeightAt(length - 1, i, Other(weight))
  }

  lemma {:induction false} WeightIsOddAndTurns(length: nat, i: nat, weight: nat)
    requires i < length && (weight == 1 || weight == 3)
    ensures WeightAt(length, i, weight) == 1 || WeightAt(length, i, weight) == 3
    ensures i + 1 < length ==> WeightAt(length, i, weight) == Other(WeightAt(length, i + 1, weight))
    decreases length
  {
    if i < length - 1 { WeightIsOddAndTurns(length - 1, i, Other(weight)); }
  }

  /** Changing one digit moves the sum by its weight times the difference. */
  lemma {:induction false} ChangeOne(s: string, i: nat, c: char, weight: nat)
    requires i < |s|
    ensures Weighted(s[i := c], weight) == Weighted(s, weight) + WeightAt(|s|, i, weight) * (ValueOf(c) - ValueOf(s[i]))
  {
    var n := |s| - 1;
    if i == n {
      assert s[i := c][..n] == s[..n];
      assert weight * ValueOf(c) == weight * ValueOf(s[i]) + weight * (ValueOf(c) - ValueOf(s[i]));
    } else {
      assert s[i := c][..n] == s[..n][i := c];
      ChangeOne(s[..n], i, c, Other(weight));
    }
  }

  lemma NotATen(w: nat, d: int, total: int)
    requires (w == 1 || w == 3) && -10 < d < 10 && d != 0 && total % 10 == 0
    ensures (total + w * d) % 10 != 0
  {
  }

  /** Every single wrong digit is noticed. */
  lemma SingleErrorIsDetected(code: string, i: nat, c: char)
    requires IsValid(code) && i < 18 && IsDigit(c) && c != code[i]
    ensures !IsValid(code[i := c])
  {
    ChangeOne(code, i, c, 1);
    WeightIsOddAndTurns(18, i, 1);
    NotATen(WeightAt(18, i, 1), ValueOf(c) - ValueOf(code[i]), Weighted(code, 1));
  }

  lemma TwoTimes(d: int, total: int)
    requires -10 < d < 10 && total % 10 == 0
    ensures (total + 2 * d) % 10 == 0 <==> d == 0 || d == 5 || d == -5
    ensures (total - 2 * d) % 10 == 0 <==> d == 0 || d == 5 || d == -5
  {
  }

  /** Two neighbours that change places go unnoticed exactly when they are equal or differ by five. */
  lemma TranspositionIsMissedExactly(code: string, i: nat)
    requires IsValid(code) && i + 1 < 18
    ensures var d := ValueOf(code[i]) - ValueOf(code[i + 1]);
      IsValid(code[i := code[i + 1]][i + 1 := code[i]]) <==> d == 0 || d == 5 || d == -5
  {
    var d := ValueOf(code[i]) - ValueOf(code[i + 1]);
    var twice := code[i := code[i + 1]][i + 1 := code[i]];
    Swapped(code, i);
    TwoTimes(d, Weighted(code, 1));
    assert |twice| == 18 && AllDigits(twice);
  }

  /** Swapping neighbours moves the sum by twice their difference, one way or the other. */
  lemma Swapped(code: string, i: nat)
    requires i + 1 < |code|
    ensures var d := ValueOf(code[i]) - ValueOf(code[i + 1]); var twice := code[i := code[i + 1]][i + 1 := code[i]];
      Weighted(twice, 1) == Weighted(code, 1) + 2 * d || Weighted(twice, 1) == Weighted(code, 1) - 2 * d
  {
    var a, b := code[i], code[i + 1];
    var once := code[i := b];
    ChangeOne(code, i, b, 1);
    ChangeOne(once, i + 1, a, 1);
    WeightIsOddAndTurns(|code|, i, 1);
    WeightIsOddAndTurns(|code|, i + 1, 1);
    TurnedWeights(WeightAt(|code|, i, 1), WeightAt(|code|, i + 1, 1), ValueOf(a), ValueOf(b));
  }

  lemma TurnedWeights(v: nat, w: nat, a: int, b: int)
    requires (w == 1 || w == 3) && v == Other(w)
    ensures v * (b - a) + w * (a - b) == 2 * (a - b) || v * (b - a) + w * (a - b) == -2 * (a - b)
  {
  }

  // ---------------------------------------------------------------- every run

  /** The unit's code comes from a serial that has been passed. */
  ghost predicate FromSerial(s: State, unit: string) {
    && unit in s.units
    && exists n: nat :: n <= s.lastSerial && FitsSerial(PrefixOf(s), n) && s.units[unit] == Sscc16(PrefixOf(s), n)
  }

  ghost predicate NoneShared(s: State) {
    forall u, v :: u in s.units && v in s.units && s.units[u] != "" && s.units[u] == s.units[v] ==> u == v
  }

  ghost predicate Accounted(s: State) {
    NoneShared(s) && forall u <- s.units.Keys :: s.units[u] != "" ==> FromSerial(s, u)
  }

  function Sscc16(prefix: string, n: nat): string { if |prefix| < 16 then Sscc(prefix, n) else "" }

  datatype Step = Add(unit: string) | Label(unit: string)

  function Perform(s: State, step: Step): State {
    match step
    case Add(unit) => if unit in s.units then s else s.(units := s.units[unit := ""])
    case Label(unit) => (match Generate(s, unit) case None => s case Some(next) => next.0)
  }

  function Run(s: State, steps: seq<Step>): State
    decreases |steps|
  {
    if |steps| == 0 then s else Run(Perform(s, steps[0]), steps[1..])
  }

  lemma LabelStaysAccounted(s: State, unit: string)
    requires Accounted(s) && Generate(s, unit).Some?
    ensures Accounted(Generate(s, unit).value.0)
  {
    if s.units[unit] == "" {
      var prefix, serial := PrefixOf(s), s.lastSerial + 1;
      var (next, code) := Generate(s, unit).value;
      assert code == Sscc16(prefix, serial);
      forall u | u in s.units && u != unit && s.units[u] != "" ensures s.units[u] != code && FromSerial(next, u) {
        assert FromSerial(s, u);
        var n: nat :| n <= s.lastSerial && FitsSerial(prefix, n) && s.units[u] == Sscc16(prefix, n);
        if s.units[u] == code { SsccIsInjective(prefix, n, serial); }
        assert next.units[u] == Sscc16(PrefixOf(next), n);
      }
      assert FromSerial(next, unit) by { assert next.units[unit] == Sscc16(PrefixOf(next), serial); }
    }
  }

  lemma AddStaysAccounted(s: State, unit: string)
    requires Accounted(s)
    ensures Accounted(Perform(s, Add(unit)))
  {
    var next := Perform(s, Add(unit));
    forall u | u in next.units && next.units[u] != "" ensures FromSerial(next, u) {
      assert FromSerial(s, u);
      var n: nat :| n <= s.lastSerial && FitsSerial(PrefixOf(s), n) && s.units[u] == Sscc16(PrefixOf(s), n);
      assert next.units[u] == Sscc16(PrefixOf(next), n);
    }
  }

  /** As long as the prefix stays, no two handling units share a code. */
  lemma {:induction false} CodesAreUnique(s: State, steps: seq<Step>)
    requires Accounted(s)
    ensures Accounted(Run(s, steps)) && NoneShared(Run(s, steps))
    decreases |steps|
  {
    if |steps| != 0 {
      match steps[0] {
        case Add(unit) => AddStaysAccounted(s, unit);
        case Label(unit) => if Generate(s, unit).Some? { LabelStaysAccounted(s, unit); }
      }
      CodesAreUnique(Perform(s, steps[0]), steps[1..]);
    }
  }

  /** A code once given stays, and only a labelling gives one: the unit named, and it alone. */
  lemma {:induction false} CodesStay(s: State, steps: seq<Step>, unit: string)
    requires unit in s.units
    ensures unit in Run(s, steps).units
    ensures s.units[unit] != "" || Label(unit) !in steps ==> Run(s, steps).units[unit] == s.units[unit]
    decreases |steps|
  {
    if |steps| != 0 {
      CodesStay(Perform(s, steps[0]), steps[1..], unit);
      assert steps[0] in steps && forall step <- steps[1..] :: step in steps;
    }
  }
}
