/** Bytes and characters, fixed-width and plain numerals, and a consuming style of parsing. */
module Text {
  import opened Wrappers

  type Byte = b: int | 0 <= b < 256

  predicate Ascii(s: string) {
    forall c :: c in s ==> c < 128 as char
  }

  function Pow(b: nat, n: nat): (p: nat)
    ensures b > 0 ==> p > 0
  {
    if n == 0 then 1
    else
      PositiveProduct(b, Pow(b, n - 1));
      b * Pow(b, n - 1)
  }

  lemma PositiveProduct(a: nat, b: nat)
    ensures a > 0 && b > 0 ==> a * b > 0
  {
  }

  const HEX := "0123456789abcdef"

  function DigitChar(d: nat): char
    requires d < 16
  {
    HEX[d]
  }

  function CharDigit(c: char): Option<nat> {
    if '0' <= c <= '9' then Some(c as int - '0' as int)
    else if 'a' <= c <= 'f' then Some(c as int - 'a' as int + 10)
    else if 'A' <= c <= 'F' then Some(c as int - 'A' as int + 10)
    else None
  }

  lemma DigitRoundTrip(d: nat)
    requires d < 16
    ensures CharDigit(DigitChar(d)) == Some(d)
  {
  }

  /** The last `width` digits of n. */
  function Fixed(base: nat, n: nat, width: nat): (s: string)
    requires 2 <= base <= 16
    ensures |s| == width
  {
    if width == 0 then ""
    else Fixed(base, n / base, width - 1) + [DigitChar(n % base)]
  }

  function Value(base: nat, s: string): Option<nat>
    requires 2 <= base <= 16
  {
    if s == "" then Some(0)
    else
      var high :- Value(base, s[..|s| - 1]);
      var low :- CharDigit(s[|s| - 1]);
      if low < base then Some(high * base + low) else None
  }

  lemma QuotientBound(q: nat, d: nat, base: nat, p: nat)
    requires q * base + d < base * p
    ensures q < p
  {
  }

  lemma AtLeastProduct(q: nat, p: nat, base: nat)
    requires q >= p
    ensures q * base >= base * p
  {
  }

  lemma QuotientUnique(n: nat, base: nat, q: nat)
    requires base > 0 && q * base <= n < q * base + base
    ensures n / base == q
  {
    DivMod(n, base);
    var p := n / base;
    if p < q {
      AtLeastProduct(q, p + 1, base);
    } else if p > q {
      AtLeastProduct(p, q + 1, base);
    }
  }

  lemma QuotientStep(n: nat, base: nat)
    requires base > 0
    ensures (n + base) / base == n / base + 1
  {
    DivMod(n, base);
    var q := n / base;
    assert (q + 1) * base == q * base + base;
    QuotientUnique(n + base, base, q + 1);
  }

  lemma ValueAppend(base: nat, s: string, d: nat)
    requires 2 <= base <= 16 && d < base && Value(base, s).Some?
    ensures Value(base, s + [DigitChar(d)]) == Some(Value(base, s).value * base + d)
  {
    DigitRoundTrip(d);
    assert (s + [DigitChar(d)])[..|s|] == s;
  }

  /** A number that fits is read back from its fixed-width numeral. */
  lemma {:induction false} FixedRoundTrip(base: nat, n: nat, width: nat)
    requires 2 <= base <= 16 && n < Pow(base, width)
    ensures Value(base, Fixed(base, n, width)) == Some(n)
    decreases width
  {
    hide Pow, CharDigit, DigitChar, Fixed, Value;
    if width > 0 {
      var q, d := Divide(n, base);
      PowStep(base, width);
      QuotientBound(q, d, base, Pow(base, width - 1));
      FixedRoundTrip(base, q, width - 1);
      FixedStep(base, q, d, width);
      ValueAppend(base, Fixed(base, q, width - 1), d);
    } else {
      PowZero(base);
      NoDigits(base, n);
    }
  }

  lemma Divide(n: nat, base: nat) returns (q: nat, d: nat)
    requires base > 0
    ensures n == q * base + d && d < base
  {
    q, d := n / base, n % base;
  }

  lemma FixedStep(base: nat, q: nat, d: nat, width: nat)
    requires 2 <= base <= 16 && width > 0 && d < base
    ensures Fixed(base, q * base + d, width) == Fixed(base, q, width - 1) + [DigitChar(d)]
  {
    QuotientUnique(q * base + d, base, q);
    DivMod(q * base + d, base);
  }

  lemma NoDigits(base: nat, n: nat)
    requires 2 <= base <= 16
    ensures Value(base, Fixed(base, n, 0)) == Some(0)
  {
  }

  lemma PowZero(b: nat)
    ensures Pow(b, 0) == 1
  {
  }

  lemma PowStep(b: nat, n: nat)
    requires n > 0
    ensures Pow(b, n) == b * Pow(b, n - 1)
  {
  }

  lemma DivMod(n: nat, base: nat)
    requires base > 0
    ensures n == n / base * base + n % base && n % base < base
  {
  }

  // ------------------------------------------------- consuming parsers

  /** The rest of `s` after `literal`. */
  function Expect(s: string, literal: string): Option<string> {
    if literal <= s then Some(s[|literal|..]) else None
  }

  function TakeNumber(s: string, base: nat, width: nat): Option<(nat, string)>
    requires 2 <= base <= 16
  {
    if |s| < width then None
    else
      var n :- Value(base, s[..width]);
      Some((n, s[width..]))
  }

  lemma ExpectLiteral(literal: string, rest: string)
    ensures Expect(literal + rest, literal) == Some(rest)
  {
  }

  lemma TakeFixed(base: nat, n: nat, width: nat, rest: string)
    requires 2 <= base <= 16 && n < Pow(base, width)
    ensures TakeNumber(Fixed(base, n, width) + rest, base, width) == Some((n, rest))
  {
    FixedRoundTrip(base, n, width);
    var s := Fixed(base, n, width) + rest;
    assert s[..width] == Fixed(base, n, width);
    assert s[width..] == rest;
  }

  lemma Hundreds()
    ensures Pow(10, 2) == 100 && Pow(10, 4) == 10000 && Pow(10, 6) == 1000000
  {
  }

  // ------------------------------------------------- stripping

  /** The characters that `str.strip()` removes. */
  predicate IsSpace(c: char) {
    var n := c as int;
    9 <= n <= 13 || 28 <= n <= 32 || n in {0x85, 0xA0, 0x1680, 0x2028, 0x2029, 0x202F, 0x205F, 0x3000} ||
    0x2000 <= n <= 0x200A
  }

  function Strip(s: string): (r: string)
    ensures r != "" ==> !IsSpace(r[0]) && !IsSpace(r[|r| - 1])
  {
    if s == "" then ""
    else if IsSpace(s[0]) then Strip(s[1..])
    else if IsSpace(s[|s| - 1]) then Strip(s[..|s| - 1])
    else s
  }
}
