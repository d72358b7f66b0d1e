/** Numbers as text: the digits that %d and %x print, and their values. */
module Numerals {
  import opened Wrappers

  predicate Base(base: nat) {
    base == 10 || base == 16
  }

  function DigitChar(d: nat): (c: char)
    requires d < 16
  {
    "0123456789abcdef"[d]
  }

  /** The value of a digit, in either case; None when it is none. */
  function DigitValue(c: char): (r: Option<nat>)
    ensures r.Some? ==> r.value < 16
  {
    if '0' <= c <= '9' then Some(c as nat - '0' as nat)
    else if 'a' <= c <= 'f' then Some(c as nat - 'a' as nat + 10)
    else if 'A' <= c <= 'F' then Some(c as nat - 'A' as nat + 10)
    else None
  }

  /** %d or %x. */
  function Numeral(n: nat, base: nat): (s: string)
    requires Base(base)
    ensures s != ""
  {
    if n < base then [DigitChar(n)] else Numeral(n / base, base) + [DigitChar(n % base)]
  }

  /** The number a non-empty string of digits stands for. */
  function Value(s: string, base: nat): Option<nat>
    requires Base(base)
  {
    if s == "" then None
    else
      var d := DigitValue(s[|s| - 1]);
      if d.None? || d.value >= base then None
      else if |s| == 1 then d
      else
        var front := Value(s[..|s| - 1], base);
        if front.None? then None else Some(front.value * base + d.value)
  }

  lemma DigitReads(d: nat)
    requires d < 16
    ensures DigitValue(DigitChar(d)) == Some(d) && DigitChar(d) != ':' && DigitChar(d) != '.'
    ensures DigitChar(d) == '0' <==> d == 0
  {
  }

  /** Text that reads as v and can stand between colons and dots. */
  predicate Reads(s: string, v: nat, base: nat)
    requires Base(base)
  {
    Value(s, base) == Some(v) && ':' !in s && '.' !in s
  }

  lemma OneDigit(d: nat, base: nat)
    requires Base(base) && d < base
    ensures Reads([DigitChar(d)], d, base)
  {
    DigitReads(d);
  }

  lemma NextDigit(s: string, v: nat, d: nat, base: nat)
    requires Base(base) && d < base && Reads(s, v, base)
    ensures Reads(s + [DigitChar(d)], v * base + d, base)
  {
    DigitReads(d);
    assert (s + [DigitChar(d)])[..|s|] == s;
  }

  /** Reading a printed number gives it back. */
  lemma {:induction false} NumeralReads(n: nat, base: nat)
    requires Base(base)
    ensures Reads(Numeral(n, base), n, base)
  {
    if n < base {
      OneDigit(n, base);
    } else {
      NumeralReads(n / base, base);
      NextDigit(Numeral(n / base, base), n / base, n % base, base);
      assert n / base * base + n % base == n;
    }
  }

  lemma {:induction false} NoLeadingZero(n: nat, base: nat)
    requires Base(base) && n > 0
    ensures Numeral(n, base)[0] != '0'
  {
    if n < base {
      DigitReads(n);
    } else {
      NoLeadingZero(n / base, base);
    }
  }

  /** 16 to the power of width. */
  function Limit(width: nat): (r: nat)
    ensures r > 0
  {
    if width == 0 then 1 else 16 * Limit(width - 1)
  }

  /** %0*x: at least width digits, for numbers that need no more. */
  function Padded(n: nat, width: nat): (s: string)
    requires n < Limit(width)
    ensures |s| == width
  {
    if width == 0 then "" else Padded(n / 16, width - 1) + [DigitChar(n % 16)]
  }

  lemma PaddedOne(n: nat)
    requires n < Limit(1)
    ensures Reads(Padded(n, 1), n, 16)
  {
    assert Limit(1) == 16 * Limit(0) && n % 16 == n;
    assert Padded(n, 1) == [DigitChar(n)];
    OneDigit(n, 16);
  }

  lemma Shrinks(n: nat, limit: nat)
    requires n < 16 * limit
    ensures n / 16 < limit && n / 16 * 16 + n % 16 == n
  {
  }

  lemma {:induction false} PaddedReads(n: nat, width: nat)
    requires 0 < width && n < Limit(width)
    ensures Reads(Padded(n, width), n, 16)
  {
    if width == 1 {
      PaddedOne(n);
    } else {
      Shrinks(n, Limit(width - 1));
      PaddedReads(n / 16, width - 1);
      NextDigit(Padded(n / 16, width - 1), n / 16, n % 16, 16);
    }
  }

  /** %04x of a number that fits. */
  function FourDigits(n: nat): (s: string)
    requires n < 0x1_0000
    ensures |s| == 4
  {
    assert Limit(4) == 16 * Limit(3) && Limit(2) == 16 * Limit(1);
    Padded(n, 4)
  }

  /** Digits as %d and %x print them. */
  predicate Printed(s: string) {
    forall i :: 0 <= i < |s| ==> '0' <= s[i] <= '9' || 'a' <= s[i] <= 'f'
  }

  lemma {:induction false} NumeralIsPrinted(n: nat, width: nat)
    requires 0 < width && n < Limit(width)
    ensures Printed(Numeral(n, 16)) && |Numeral(n, 16)| <= width
  {
    if n >= 16 {
      assert width > 1 by {
        assert Limit(1) == 16 * Limit(0);
      }
      Shrinks(n, Limit(width - 1));
      NumeralIsPrinted(n / 16, width - 1);
    }
  }

  lemma {:induction false} PaddedIsPrinted(n: nat, width: nat)
    requires n < Limit(width)
    ensures Printed(Padded(n, width))
  {
    if width > 0 {
      PaddedIsPrinted(n / 16, width - 1);
    }
  }
}
