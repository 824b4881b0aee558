/** Texts as Python treats them: decimal numbers, zero filling, stripping. */
module Texts {
  predicate IsDigit(c: char) { '0' <= c <= '9' }

  predicate AllDigits(s: string) { forall i :: 0 <= i < |s| ==> IsDigit(s[i]) }

  /** What Python's strip removes; the GS1 separator is among it. */
  predicate IsSpace(c: char) {
    var n := c as int;
    9 <= n <= 13 || 28 <= n <= 32 || n == 0x85 || n == 0xA0 || n == 0x1680 || 0x2000 <= n <= 0x200A || n == 0x2028 ||
        n == 0x2029 || n == 0x202F || n == 0x205F || n == 0x3000
  }

  function TrimLeft(s: string): (r: string)
    ensures |r| <= |s|
  {
    if |s| > 0 && IsSpace(s[0]) then TrimLeft(s[1..]) else s
  }

  function TrimRight(s: string): string { if |s| > 0 && IsSpace(s[|s| - 1]) then TrimRight(s[..|s| - 1]) else s }

  function Trim(s: string): string { TrimRight(TrimLeft(s)) }

  /** The text does not end in something `Trim` takes off. */
  predicate EndsSolid(s: string) { s == "" || !IsSpace(s[|s| - 1]) }

  lemma TrimIsIdentity(s: string)
    requires s == "" || !IsSpace(s[0])
    requires EndsSolid(s)
    ensures Trim(s) == s
  {
  }

  predicate AllSpaces(s: string) { forall i :: 0 <= i < |s| ==> IsSpace(s[i]) }

  lemma {:induction false} TrimLeftSplits(s: string)
    ensures var n := |s| - |TrimLeft(s)|; TrimLeft(s) == s[n..] && AllSpaces(s[..n])
    ensures TrimLeft(s) == "" || !IsSpace(TrimLeft(s)[0])
  {
    if |s| > 0 && IsSpace(s[0]) {
      TrimLeftSplits(s[1..]);
      var n, k := |s| - |TrimLeft(s)|, |s[1..]| - |TrimLeft(s[1..])|;
      assert s[1..][k..] == s[n..] && s[..n] == [s[0]] + s[1..][..k];
    }
  }

  lemma {:induction false} TrimRightSplits(s: string)
    ensures |TrimRight(s)| <= |s| && TrimRight(s) == s[..|TrimRight(s)|] && AllSpaces(s[|TrimRight(s)|..])
    ensures EndsSolid(TrimRight(s))
  {
    if |s| > 0 && IsSpace(s[|s| - 1]) {
      var front := s[..|s| - 1];
      TrimRightSplits(front);
      assert s[|TrimRight(s)|..] == front[|TrimRight(s)|..] + [s[|s| - 1]];
    }
  }

  /** Spaces are taken off both ends, all of them and nothing else. */
  lemma TrimIs(s: string) returns (before: string, behind: string)
    ensures s == before + Trim(s) + behind && AllSpaces(before) && AllSpaces(behind)
    ensures Trim(s) != "" ==> !IsSpace(Trim(s)[0]) && !IsSpace(Trim(s)[|Trim(s)| - 1])
  {
    var rest := TrimLeft(s);
    TrimLeftSplits(s);
    TrimRightSplits(rest);
    before, behind := s[..|s| - |rest|], rest[|Trim(s)|..];
    assert rest == Trim(s) + behind && s == before + rest;
  }

  // ---------------------------------------------------------------- numbers

  function DigitOf(d: nat): (c: char)
    requires d < 10
    ensures IsDigit(c)
  {
    ('0' as int + d) as char
  }

  function ValueOf(c: char): nat { if IsDigit(c) then c as int - '0' as int else 0 }

  /** `str(n)` */
  function Decimal(n: nat): (s: string)
    ensures |s| > 0
  {
    if n < 10 then [DigitOf(n)] else Decimal(n / 10) + [DigitOf(n % 10)]
  }

  /** `int(s)` of digits. */
  function Number(s: string): nat { if |s| == 0 then 0 else 10 * Number(s[..|s| - 1]) + ValueOf(s[|s| - 1]) }

  lemma {:induction false} DecimalIsDigits(n: nat)
    ensures AllDigits(Decimal(n))
  {
    if n >= 10 { DecimalIsDigits(n / 10); }
  }

  lemma {:induction false} NumberOfDecimal(n: nat)
    ensures Number(Decimal(n)) == n
  {
    if n < 10 {
      assert Decimal(n)[..0] == "";
    } else {
      NumberOfDecimal(n / 10);
      assert Decimal(n)[..|Decimal(n)| - 1] == Decimal(n / 10);
    }
  }

  /** No number of several digits begins with a zero. */
  lemma {:induction false} DecimalStarts(n: nat)
    ensures |Decimal(n)| > 1 ==> Decimal(n)[0] != '0'
  {
    if n >= 10 {
      DecimalStarts(n / 10);
      assert Decimal(n)[0] == Decimal(n / 10)[0];
    }
  }

  function Zeros(n: nat): (r: string)
    ensures |r| == n
  {
    if n == 0 then "" else "0" + Zeros(n - 1)
  }

  /** `s.zfill(n)` of an unsigned number. */
  function ZeroFilled(code: string, n: nat): (r: string)
    ensures |r| == if |code| >= n then |code| else n
  {
    if |code| >= n then code else Zeros(n - |code|) + code
  }

  lemma {:induction false} ZerosAreDigits(n: nat)
    ensures AllDigits(Zeros(n))
  {
    if n != 0 { ZerosAreDigits(n - 1); }
  }

  lemma {:induction false} ZerosCountNothing(n: nat, s: string)
    ensures Number(Zeros(n) + s) == Number(s)
  {
    if |s| != 0 {
      var front := s[..|s| - 1];
      assert (Zeros(n) + s)[..n + |s| - 1] == Zeros(n) + front;
      ZerosCountNothing(n, front);
    } else if n != 0 {
      ZerosCountNothing(n - 1, "");
      assert Zeros(n) + "" == Zeros(n) && Zeros(n - 1) + "" == Zeros(n - 1);
      ZerosAtEnd(n);
      assert Zeros(n)[..n - 1] == Zeros(n - 1);
    }
  }

  lemma {:induction false} ZerosAtEnd(n: nat)
    requires n > 0
    ensures Zeros(n) == Zeros(n - 1) + "0"
  {
    if n > 1 { ZerosAtEnd(n - 1); }
  }

  /** Zero-filled numbers read back, so different numbers never look the same. */
  lemma ZeroFilledReadsBack(n: nat, length: nat)
    ensures Number(ZeroFilled(Decimal(n), length)) == n && AllDigits(ZeroFilled(Decimal(n), length))
  {
    NumberOfDecimal(n);
    DecimalIsDigits(n);
    if |Decimal(n)| < length {
      ZerosAreDigits(length - |Decimal(n)|);
      ZerosCountNothing(length - |Decimal(n)|, Decimal(n));
    }
  }
}
