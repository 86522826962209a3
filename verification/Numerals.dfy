/** Decimal text of integers: std::to_string, stream output and std::from_chars. */
module Numerals {

  const TWO_64 := 0x1_0000_0000_0000_0000
  const TWO_63 := 0x8000_0000_0000_0000
  const TWO_32 := 0x1_0000_0000

  type Uint64 = n: int | 0 <= n < TWO_64
  type Uint32 = n: int | 0 <= n < TWO_32
  type Int32 = n: int | -0x8000_0000 <= n < 0x8000_0000

  predicate IsDigit(c: char) { '0' <= c <= '9' }

  predicate AllDigits(s: string) { forall i :: 0 <= i < |s| ==> IsDigit(s[i]) }

  function Digit(d: nat): (c: char)
    requires d < 10
  {
    ('0' as int + d) as char
  }

  function DigitValue(c: char): nat
    requires IsDigit(c)
  {
    c as int - '0' as int
  }

  /** The decimal digits of n, most significant first. */
  function Print(n: nat): string {
    if n < 10 then [Digit(n)] else Print(n / 10) + [Digit(n % 10)]
  }

  function PrintInt(z: int): string {
    if z < 0 then "-" + Print(-z) else Print(z)
  }

  /** The number a digit string denotes; leading zeros are allowed. */
  function Value(s: string): nat
    requires AllDigits(s)
  {
    if s == "" then 0 else 10 * Value(s[..|s| - 1]) + DigitValue(s[|s| - 1])
  }

  lemma {:induction false} PrintIsNumeral(n: nat)
    ensures Print(n) != "" && AllDigits(Print(n))
    ensures Value(Print(n)) == n
    ensures n > 0 ==> Print(n)[0] != '0'
  {
    if n >= 10 {
      PrintIsNumeral(n / 10);
      var s := Print(n);
      assert s[..|s| - 1] == Print(n / 10);
    } else {
      assert Value("") == 0;
      assert Print(n)[..0] == "";
    }
  }

  lemma PrintInjective(m: nat, n: nat)
    requires Print(m) == Print(n)
    ensures m == n
  {
    PrintIsNumeral(m);
    PrintIsNumeral(n);
  }

  lemma PrintIntSign(z: int)
    ensures PrintInt(z) != "" && (PrintInt(z)[0] == '-' <==> z < 0)
  {
    PrintIsNumeral(if z < 0 then -z else z);
  }

  lemma PrintIntInjective(m: int, n: int)
    requires PrintInt(m) == PrintInt(n)
    ensures m == n
  {
    PrintIntSign(m);
    PrintIntSign(n);
    if m < 0 {
      assert Print(-m) == PrintInt(m)[1..] == Print(-n);
      PrintInjective(-m, -n);
    } else {
      PrintInjective(m, n);
    }
  }

  function Pow10(k: nat): nat { if k == 0 then 1 else 10 * Pow10(k - 1) }

  lemma {:induction false} PrintLength(n: nat, k: nat)
    requires 1 <= k && n < Pow10(k)
    ensures |Print(n)| <= k
  {
    if n >= 10 {
      assert k > 1;
      PrintLength(n / 10, k - 1);
    }
  }

  lemma TwentyDigits(n: Uint64)
    ensures |Print(n)| <= 20
  {
    assert Pow10(5) == 100_000;
    assert Pow10(10) == 10_000_000_000;
    assert Pow10(15) == 1_000_000_000_000_000;
    assert Pow10(20) == 100_000_000_000_000_000_000;
    PrintLength(n, 20);
  }

  // ---- std::from_chars into a 64-bit integer, base 10 ----

  /** What from_chars reports: nothing matched, the match is out of range, or a value and where the match ends. */
  datatype Scan = NoMatch | OutOfRange | Matched(value: int, end: nat)

  /** Length of the longest prefix of digits. */
  function DigitRun(s: string): (n: nat)
    ensures n <= |s| && AllDigits(s[..n])
    ensures n < |s| ==> !IsDigit(s[n])
  {
    if s == "" || !IsDigit(s[0]) then 0 else 1 + DigitRun(s[1..])
  }

  predicate InRange64(signed: bool, v: int) {
    if signed then -TWO_63 <= v < TWO_63 else 0 <= v < TWO_64
  }

  /** A minus sign is part of the pattern of signed types only; a plus sign or blank never is. */
  function FromChars(signed: bool, s: string): Scan {
    var minus := signed && s != "" && s[0] == '-';
    var body := if minus then s[1..] else s;
    var n := DigitRun(body);
    if n == 0 then NoMatch else
      var magnitude := Value(body[..n]);
      var v: int := if minus then 0 - magnitude else magnitude;
      if InRange64(signed, v) then Matched(v, n + if minus then 1 else 0) else OutOfRange
  }

  lemma DigitRunAll(s: string)
    requires AllDigits(s)
    ensures DigitRun(s) == |s|
  {
  }

  /** Reading back what was printed consumes all of it and yields the same number. */
  lemma FromCharsPrint(signed: bool, z: int)
    requires InRange64(signed, z)
    ensures PrintInt(z) != ""
    ensures FromChars(signed, PrintInt(z)) == Matched(z, |PrintInt(z)|)
  {
    var s := PrintInt(z);
    var m := if z < 0 then -z else z;
    PrintIsNumeral(m);
    DigitRunAll(Print(m));
    assert Print(m)[..|Print(m)|] == Print(m);
    if z < 0 {
      assert s[1..] == Print(m);
    } else {
      assert s[0] == Print(m)[0];
    }
  }

  /** Text that from_chars takes whole is an optional minus sign and digits. */
  lemma FromCharsWhole(signed: bool, s: string)
    requires FromChars(signed, s).Matched? && FromChars(signed, s).end == |s|
    ensures InRange64(signed, FromChars(signed, s).value)
    ensures if signed && s != "" && s[0] == '-'
            then s[1..] != "" && AllDigits(s[1..]) && FromChars(signed, s).value == 0 - Value(s[1..])
            else s != "" && AllDigits(s) && FromChars(signed, s).value == Value(s)
  {
    var body := if signed && s != "" && s[0] == '-' then s[1..] else s;
    assert body[..|body|] == body;
  }

  /** An optional minus sign and digits are taken whole, unless the number is too large. */
  lemma FromCharsDigits(signed: bool, s: string)
    requires var body := if signed && s != "" && s[0] == '-' then s[1..] else s; body != "" && AllDigits(body)
    ensures var minus := signed && s != "" && s[0] == '-';
            var v: int := if minus then 0 - Value(s[1..]) else Value(s);
            FromChars(signed, s) == if InRange64(signed, v) then Matched(v, |s|) else OutOfRange
  {
    var body := if signed && s != "" && s[0] == '-' then s[1..] else s;
    DigitRunAll(body);
    assert body[..|body|] == body;
  }

  // ---- Colon-separated identities ----

  predicate ColonFree(s: string) { forall i :: 0 <= i < |s| ==> s[i] != ':' }

  lemma PrintIntColonFree(z: int)
    ensures ColonFree(PrintInt(z))
  {
    PrintIsNumeral(if z < 0 then -z else z);
  }

  /** Splitting at the last colon is unambiguous, whatever stands before it. */
  lemma SplitLast(a: string, x: string, b: string, y: string)
    requires ColonFree(x) && ColonFree(y)
    requires a + ":" + x == b + ":" + y
    ensures a == b && x == y
  {
    var s := a + ":" + x;
    assert s[|a|] == ':' && forall i :: |a| < i < |s| ==> s[i] == x[i - |a| - 1];
    assert s == b + ":" + y;
    assert s[|b|] == ':' && forall i :: |b| < i < |s| ==> s[i] == y[i - |b| - 1];
    assert |a| == |b|;
    assert a == s[..|a|] && b == s[..|b|];
    assert x == s[|a| + 1..] && y == s[|b| + 1..];
  }

  /** Splitting at the first colon is unambiguous, whatever stands after it. */
  lemma SplitFirst(x: string, a: string, y: string, b: string)
    requires ColonFree(x) && ColonFree(y)
    requires x + ":" + a == y + ":" + b
    ensures x == y && a == b
  {
    var s := x + ":" + a;
    assert s[|x|] == ':' && forall i :: 0 <= i < |x| ==> s[i] == x[i];
    assert s == y + ":" + b;
    assert s[|y|] == ':' && forall i :: 0 <= i < |y| ==> s[i] == y[i];
    assert |x| == |y|;
    assert x == s[..|x|] && y == s[..|y|];
    assert a == s[|x| + 1..] && b == s[|y| + 1..];
  }
}
