/** Decimal notation of integers, as strconv.Itoa and %d write it. */
module Decimal {
  import opened Rows

  function Digit(d: nat): char
    requires d < 10
  {
    '0' + (d as char)
  }

  predicate IsDigit(c: char) { '0' <= c <= '9' }

  function DigitValue(c: char): nat
    requires IsDigit(c)
  {
    c as int - '0' as int
  }

  function Digits(n: nat): (s: string)
    ensures s != [] && forall i :: 0 <= i < |s| ==> IsDigit(s[i])
  {
    if n < 10 then [Digit(n)] else Digits(n / 10) + [Digit(n % 10)]
  }

  function Value(s: string): nat
    requires forall i :: 0 <= i < |s| ==> IsDigit(s[i])
  {
    if s == [] then 0 else 10 * Value(s[..|s| - 1]) + DigitValue(s[|s| - 1])
  }

  function IntString(n: int): string {
    if n < 0 then "-" + Digits(-n) else Digits(n)
  }

  /** An optional minus sign and at least one digit. */
  function ParseInt(s: string): Option<int> {
    var body := if s != [] && s[0] == '-' then s[1..] else s;
    if body == [] || exists i :: 0 <= i < |body| && !IsDigit(body[i]) then None
    else if s[0] == '-' then Some(-(Value(body) as int)) else Some(Value(body))
  }

  lemma {:induction false} ValueOfDigits(n: nat)
    ensures Value(Digits(n)) == n
  {
    if n >= 10 {
      ValueOfDigits(n / 10);
      var s := Digits(n);
      assert s[..|s| - 1] == Digits(n / 10);
    }
  }

  lemma IntRoundTrip(n: int)
    ensures ParseInt(IntString(n)) == Some(n)
  {
    if n < 0 {
      ValueOfDigits(-n);
      assert IntString(n)[1..] == Digits(-n);
    } else {
      ValueOfDigits(n);
      assert IsDigit(Digits(n)[0]);
    }
  }

  lemma IntStringExamples()
    ensures IntString(0) == "0" && IntString(120) == "120" && IntString(-7) == "-7"
  {
    assert Digits(120) == Digits(12) + ['0'] && Digits(12) == Digits(1) + ['2'];
  }

  lemma DigitsInjective(m: nat, n: nat)
    requires Digits(m) == Digits(n)
    ensures m == n
  {
    ValueOfDigits(m);
    ValueOfDigits(n);
  }

  /** A string splits in one way at a colon that only digits follow. */
  lemma SplitAtLastColon(p: string, q: string, a: string, b: string)
    requires p + ":" + a == q + ":" + b
    requires (forall i :: 0 <= i < |a| ==> IsDigit(a[i])) && (forall i :: 0 <= i < |b| ==> IsDigit(b[i]))
    ensures p == q && a == b
  {
    var s, t := p + ":" + a, q + ":" + b;
    assert s[|p|] == ':' && t[|q|] == ':';
    forall i | |p| < i < |s| ensures s[i] != ':' { assert s[i] == a[i - |p| - 1]; }
    forall i | |q| < i < |t| ensures t[i] != ':' { assert t[i] == b[i - |q| - 1]; }
    assert |p| == |q|;
    assert p == s[..|p|] && q == t[..|p|];
    assert a == s[|p| + 1..] && b == t[|p| + 1..];
  }
}
