/** Numbers printed in decimal, as the format directives `{}` and `{:0w}` print them. */
module Decimals {

  function Digit(n: int): char
    requires 0 <= n < 10
  {
    "0123456789"[n]
  }

  function Decimal(n: nat): (s: string)
    ensures s != ""
  {
    if n < 10 then [Digit(n)] else Decimal(n / 10) + [Digit(n % 10)]
  }

  function Zeros(n: nat): (s: string)
    ensures |s| == n
  {
    if n == 0 then "" else "0" + Zeros(n - 1)
  }

  /** The number in decimal, filled up with zeros to the width. */
  function Padded(n: nat, width: nat): string {
    var s := Decimal(n);
    if |s| >= width then s else Zeros(width - |s|) + s
  }

  // ---------- reading them back ----------

  lemma {:induction false} DecimalIsDigits(n: nat, i: nat)
    requires i < |Decimal(n)|
    ensures '0' <= Decimal(n)[i] <= '9'
  {
    if n >= 10 && i < |Decimal(n / 10)| {
      DecimalIsDigits(n / 10, i);
    }
  }

  function DigitValue(c: char): int {
    c as int - '0' as int
  }

  function Value(s: string): int {
    if s == "" then 0 else 10 * Value(s[..|s| - 1]) + DigitValue(s[|s| - 1])
  }

  lemma DigitIsRead(n: int)
    requires 0 <= n < 10
    ensures DigitValue(Digit(n)) == n
  {
  }

  lemma ValueAppend(s: string, c: char)
    ensures Value(s + [c]) == 10 * Value(s) + DigitValue(c)
  {
    assert (s + [c])[..|s|] == s;
  }

  lemma {:induction false} DecimalIsRead(n: nat)
    ensures Value(Decimal(n)) == n
  {
    if n < 10 {
      DigitIsRead(n);
      ValueAppend("", Digit(n));
      assert "" + [Digit(n)] == Decimal(n);
    } else {
      DecimalIsRead(n / 10);
      DigitIsRead(n % 10);
      ValueAppend(Decimal(n / 10), Digit(n % 10));
    }
  }

  lemma {:induction false} ZerosCountNothing(n: nat, s: string)
    ensures Value(Zeros(n) + s) == Value(s)
    decreases |s|, n
  {
    if s != "" {
      var init := s[..|s| - 1];
      ZerosCountNothing(n, init);
      ValueAppend(init, s[|s| - 1]);
      ValueAppend(Zeros(n) + init, s[|s| - 1]);
      assert init + [s[|s| - 1]] == s;
      assert Zeros(n) + init + [s[|s| - 1]] == Zeros(n) + s;
    } else if n > 0 {
      ZerosCountNothing(n - 1, "");
      ZerosAppend(n - 1);
      ValueAppend(Zeros(n - 1), '0');
      assert Zeros(n - 1) + "" == Zeros(n - 1) && Zeros(n) + s == Zeros(n);
    } else {
      assert Zeros(0) + s == "";
    }
  }

  lemma {:induction false} ZerosAppend(n: nat)
    ensures Zeros(n) + "0" == Zeros(n + 1)
  {
    if n > 0 {
      ZerosAppend(n - 1);
    }
  }

  /** Different numbers print differently, whatever the width. */
  lemma PaddedIsInjective(m: nat, n: nat, width: nat)
    requires Padded(m, width) == Padded(n, width)
    ensures m == n
  {
    PaddedIsRead(m, width);
    PaddedIsRead(n, width);
  }

  lemma PaddedIsRead(n: nat, width: nat)
    ensures Value(Padded(n, width)) == n
  {
    DecimalIsRead(n);
    var s := Decimal(n);
    if |s| < width {
      ZerosCountNothing(width - |s|, s);
    }
  }
}
