/** Character-level helpers shared by the lexer and the reporter: counting, C-string views and
    the decimal rendering that `printf("%d")` performs. */
module Strings {

  /** Number of occurrences of `c` in `t`. */
  function Count(c: char, t: seq<char>): nat
  {
    if t == [] then 0 else (if t[0] == c then 1 else 0) + Count(c, t[1..])
  }

  lemma {:induction false} CountAppend(c: char, a: seq<char>, b: seq<char>)
    ensures Count(c, a + b) == Count(c, a) + Count(c, b)
  {
    if a == [] {
      assert a + b == b;
    } else {
      assert (a + b)[1..] == a[1..] + b;
      CountAppend(c, a[1..], b);
    }
  }

  lemma {:induction false} CountZero(c: char, t: seq<char>)
    ensures Count(c, t) == 0 <==> c !in t
  {
    if t != [] {
      CountZero(c, t[1..]);
      assert t == [t[0]] + t[1..];
    }
  }

  /** What a C function taking `char*` sees of a buffer: everything before the first NUL. */
  function CString(t: seq<char>): (r: seq<char>)
    ensures |r| <= |t| && r == t[..|r|]
    ensures '\0' !in r
    ensures |r| < |t| ==> t[|r|] == '\0'
  {
    if t == [] || t[0] == '\0' then [] else [t[0]] + CString(t[1..])
  }

  /** The C string of a buffer is everything before its first NUL. */
  lemma CStringEndsAt(t: seq<char>, n: nat)
    requires n < |t| && t[n] == '\0' && '\0' !in t[..n]
    ensures CString(t) == t[..n]
  {
  }

  lemma CStringOfPlainText(t: seq<char>)
    requires '\0' !in t
    ensures CString(t) == t
  {
  }

  predicate IsDigit(c: char) { '0' <= c <= '9' }

  function DigitChar(d: nat): char
    requires d < 10
  {
    ['0', '1', '2', '3', '4', '5', '6', '7', '8', '9'][d]
  }

  function DigitValue(c: char): nat
    requires IsDigit(c)
  {
    (c as int - '0' as int) as nat
  }

  /** The digits of `n` in base ten, most significant first, without leading zeros. */
  function Digits(n: nat): (r: seq<char>)
    ensures 1 <= |r| && (|r| > 1 ==> r[0] != '0')
    ensures forall i | 0 <= i < |r| :: IsDigit(r[i])
  {
    if n < 10 then [DigitChar(n)] else Digits(n / 10) + [DigitChar(n % 10)]
  }

  /** `printf("%d", n)`: an optional minus sign followed by the digits of |n|. */
  function Decimal(n: int): (r: seq<char>)
  {
    if n < 0 then ['-'] + Digits(-n) else Digits(n)
  }

  /** Reads back a non-empty run of decimal digits. */
  function ParseDigits(t: seq<char>): nat
    requires forall i | 0 <= i < |t| :: IsDigit(t[i])
  {
    if t == [] then 0 else 10 * ParseDigits(t[..|t| - 1]) + DigitValue(t[|t| - 1])
  }

  /** Reads back what `Decimal` writes. */
  function ParseDecimal(t: seq<char>): int
    requires forall i | 0 <= i < |t| :: IsDigit(t[i]) || (i == 0 && t[i] == '-')
  {
    if t != [] && t[0] == '-' then 0 - ParseDigits(t[1..]) as int else ParseDigits(t)
  }

  lemma {:induction false} DigitsRoundTrip(n: nat)
    ensures ParseDigits(Digits(n)) == n
  {
    if n >= 10 {
      DigitsRoundTrip(n / 10);
      var d := Digits(n);
      assert d[..|d| - 1] == Digits(n / 10);
    }
  }

  /** The output for a list of items: the output of each, one after the other. */
  function Concat<T>(part: T -> seq<char>, xs: seq<T>): seq<char>
  {
    if xs == [] then [] else Concat(part, xs[..|xs| - 1]) + part(xs[|xs| - 1])
  }

  /** One more item appends its output. */
  lemma ConcatSnoc<T>(part: T -> seq<char>, xs: seq<T>, i: nat)
    requires i < |xs|
    ensures Concat(part, xs[..i + 1]) == Concat(part, xs[..i]) + part(xs[i])
  {
    assert xs[..i + 1][..i] == xs[..i];
  }

  /** The output for two lists is that of the first followed by that of the second. */
  lemma {:induction false} ConcatAppend<T>(part: T -> seq<char>, a: seq<T>, b: seq<T>)
    ensures Concat(part, a + b) == Concat(part, a) + Concat(part, b)
    decreases |b|
  {
    if b == [] {
      assert a + b == a;
    } else {
      var n := |b| - 1;
      var ab := a + b;
      assert ab[..|ab| - 1] == a + b[..n] && ab[|ab| - 1] == b[n];
      ConcatAppend(part, a, b[..n]);
      assert Concat(part, ab) == (Concat(part, a) + Concat(part, b[..n])) + part(b[n]);
      assert Concat(part, b) == Concat(part, b[..n]) + part(b[n]);
    }
  }

  /** `%d` writes only digits, after an optional leading minus sign. */
  lemma DecimalIsDigits(n: int)
    ensures forall i | 0 <= i < |Decimal(n)| :: IsDigit(Decimal(n)[i]) || (i == 0 && Decimal(n)[i] == '-')
  {
    if n < 0 {
      var d := Digits(-n);
      forall i | 0 <= i < |Decimal(n)|
        ensures IsDigit(Decimal(n)[i]) || (i == 0 && Decimal(n)[i] == '-')
      {
        if i > 0 {
          assert Decimal(n)[i] == d[i - 1];
        }
      }
    }
  }

  /** The line number printed by `%d` is read back unchanged: nothing is lost in the rendering. */
  lemma DecimalRoundTrip(n: int)
    ensures forall i | 0 <= i < |Decimal(n)| :: IsDigit(Decimal(n)[i]) || (i == 0 && Decimal(n)[i] == '-')
    ensures ParseDecimal(Decimal(n)) == n
  {
    DecimalIsDigits(n);
    if n < 0 {
      assert Decimal(n)[1..] == Digits(-n);
      DigitsRoundTrip(-n);
    } else {
      DigitsRoundTrip(n);
    }
  }
}
