/** Numbers in decimal text. */
module Decimal {
  import opened Common
  import opened Pieces
  import opened Characters

  function DigitValue(c: char): nat {
    if IsDigit(c) then c as int - 48 else 0
  }

  /** A number in text. */
  function Num(n: nat): (s: string)
    ensures |s| > 0
  {
    if n < 10 then [(48 + n) as char] else Num(n / 10) + [(48 + n % 10) as char]
  }

  /** The number that the digits of a range spell. */
  function ValueIn(b: string, from: nat, end: nat): nat
    requires end <= |b|
  {
    if end <= from then 0 else 10 * ValueIn(b, from, end - 1) + DigitValue(b[end - 1])
  }

  predicate DigitsIn(b: string, from: nat, end: nat)
    requires end <= |b|
  {
    end <= from || (IsDigit(b[end - 1]) && DigitsIn(b, from, end - 1))
  }

  /** A number in text spells itself. */
  lemma {:induction false} NumValue(n: nat, b: string, at: nat)
    requires Holds(b, at, Num(n))
    ensures ValueIn(b, at, at + |Num(n)|) == n && DigitsIn(b, at, at + |Num(n)|)
  {
    var last := [(48 + n % 10) as char];
    if n < 10 {
      HoldsPair(b, at, [], Num(n));
      assert ValueIn(b, at, at) == 0;
    } else {
      HoldsPair(b, at, Num(n / 10), last);
      NumValue(n / 10, b, at);
    }
  }

  /** `padStart` with zeros. */
  function Padded(s: string, width: nat): string
    decreases width - |s|
  {
    if |s| < width then Padded(['0'] + s, width) else s
  }

  lemma {:induction false} ZeroFirst(s: string, n: nat)
    requires n <= |s|
    ensures ValueIn(['0'] + s, 0, n + 1) == ValueIn(s, 0, n)
    ensures DigitsIn(s, 0, n) ==> DigitsIn(['0'] + s, 0, n + 1)
  {
    if n > 0 {
      ZeroFirst(s, n - 1);
    }
  }

  /** Padding keeps the number and makes so many places of it, unless there are more already. */
  lemma {:induction false} PaddedValue(s: string, width: nat)
    ensures ValueIn(Padded(s, width), 0, |Padded(s, width)|) == ValueIn(s, 0, |s|) && |Padded(s, width)| == Max(width, |s|)
    ensures DigitsIn(s, 0, |s|) ==> DigitsIn(Padded(s, width), 0, |Padded(s, width)|)
    decreases width - |s|
  {
    if |s| < width {
      ZeroFirst(s, |s|);
      PaddedValue(['0'] + s, width);
    }
  }

  function Pow10(n: nat): nat {
    if n == 0 then 1 else 10 * Pow10(n - 1)
  }

  /** How many digits a number has. */
  lemma {:induction false} NumLength(n: nat, k: nat)
    requires k > 0
    ensures |Num(n)| <= k <==> n < Pow10(k)
    decreases k
  {
    if k == 1 {
      assert Pow10(1) == 10 * Pow10(0);
    } else if n >= 10 {
      NumLength(n / 10, k - 1);
    } else {
      PowPositive(k - 1);
    }
  }

  lemma {:induction false} PowPositive(k: nat)
    ensures Pow10(k) >= 1
  {
    if k > 0 {
      PowPositive(k - 1);
    }
  }

  lemma NumLonger(m: nat, n: nat)
    requires m <= n
    ensures |Num(m)| <= |Num(n)|
  {
    NumLength(n, |Num(n)|);
    NumLength(m, |Num(n)|);
  }

  lemma NumValueAlone(n: nat)
    ensures ValueIn(Num(n), 0, |Num(n)|) == n && DigitsIn(Num(n), 0, |Num(n)|)
  {
    AgreesAll(Num(n), 0, Num(n), |Num(n)|);
    NumValue(n, Num(n), 0);
  }
}
