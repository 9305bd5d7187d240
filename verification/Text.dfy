/** Optional values. */
module Options {
  datatype Option<+T> = None | Some(value: T)
}

/** Numbers as printed by the conversions %x and %d. */
module Text {

  function Digit(d: nat): char
    requires d < 16
  {
    "0123456789abcdef"[d]
  }

  predicate IsDigit(c: char, base: nat)
    requires base <= 16
  {
    exists d: nat | d < base :: Digit(d) == c
  }

  /** `n` without leading zeros. */
  function Print(n: nat, base: nat): (s: string)
    requires 2 <= base <= 16
    ensures s != [] && forall c | c in s :: IsDigit(c, base)
  {
    if n < base then [Digit(n)] else Print(n / base, base) + [Digit(n % base)]
  }

  function DigitValue(c: char): nat {
    if '0' <= c <= '9' then c as nat - '0' as nat
    else if 'a' <= c <= 'f' then c as nat - 'a' as nat + 10
    else 0
  }

  function Parse(s: string, base: nat): nat {
    if s == [] then 0 else Parse(s[..|s| - 1], base) * base + DigitValue(s[|s| - 1])
  }

  lemma DigitRoundTrip(d: nat)
    requires d < 16
    ensures DigitValue(Digit(d)) == d
  {
  }

  lemma ParseSnoc(s: string, c: char, base: nat)
    ensures Parse(s + [c], base) == Parse(s, base) * base + DigitValue(c)
  {
    assert (s + [c])[..|s|] == s;
  }

  lemma DivMod(n: nat, base: nat)
    requires base > 0
    ensures (n / base) * base + n % base == n
  {
  }

  lemma ParseDigit(s: string, r: nat, base: nat)
    requires r < 16
    ensures Parse(s + [Digit(r)], base) == Parse(s, base) * base + r
  {
    ParseSnoc(s, Digit(r), base);
    DigitRoundTrip(r);
  }

  lemma ParseOne(r: nat, base: nat)
    requires r < 16
    ensures Parse([Digit(r)], base) == r
  {
    ParseDigit([], r, base);
    assert [] + [Digit(r)] == [Digit(r)];
    assert Parse([], base) == 0;
  }

  lemma {:induction false} ParsePrint(n: nat, base: nat)
    requires 2 <= base <= 16
    ensures Parse(Print(n, base), base) == n
    decreases n
  {
    hide Parse, Digit;
    if n < base {
      ParseOne(n, base);
    } else {
      ParsePrint(n / base, base);
      ParseDigit(Print(n / base, base), n % base, base);
      DivMod(n, base);
    }
  }

  /** A numeral: digits of the base, and no zero in front of others. */
  predicate Numeral(s: string, base: nat)
    requires base <= 16
  {
    s != "" && (|s| == 1 || s[0] != '0') && forall c | c in s :: IsDigit(c, base)
  }

  lemma {:induction false} PrintNumeral(n: nat, base: nat)
    requires 2 <= base <= 16
    ensures Numeral(Print(n, base), base)
    ensures n > 0 ==> Print(n, base)[0] != '0'
    decreases n
  {
    hide IsDigit;
    if n >= base {
      PrintNumeral(n / base, base);
      assert Print(n, base)[0] == Print(n / base, base)[0];
    }
  }

  /** The digits of a base, and their values. */
  lemma DigitOf(c: char, base: nat)
    requires 2 <= base <= 16 && IsDigit(c, base)
    ensures DigitValue(c) < base && Digit(DigitValue(c)) == c && (c != '0' ==> DigitValue(c) > 0)
  {
    var d: nat :| d < base && Digit(d) == c;
    DigitRoundTrip(d);
  }

  lemma {:induction false} NextMultiple(a: int, b: int, base: nat)
    requires a < b
    ensures a * base + base <= b * base
    decreases b - a
  {
    assert b * base == (b - 1) * base + base;
    if a < b - 1 {
      NextMultiple(a, b - 1, base);
    }
  }

  lemma SameParts(q: int, r: int, e: int, m: int, base: nat)
    requires 0 <= r < base && 0 <= m < base && q * base + r == e * base + m
    ensures q == e && r == m
  {
    if q < e {
      NextMultiple(q, e, base);
    } else if e < q {
      NextMultiple(e, q, base);
    }
  }

  lemma DivParts(q: nat, r: nat, base: nat)
    requires r < base
    ensures (q * base + r) / base == q && (q * base + r) % base == r
  {
    var x := q * base + r;
    DivMod(x, base);
    SameParts(q, r, x / base, x % base, base);
  }

  lemma MoreThanOne(q: nat, r: nat, base: nat)
    requires q > 0
    ensures q * base + r >= base
  {
  }

  lemma {:induction false} NumeralPositive(s: string, base: nat)
    requires 2 <= base <= 16 && Numeral(s, base) && s[0] != '0'
    ensures Parse(s, base) > 0
    decreases |s|
  {
    hide IsDigit, DigitValue;
    assert s[0] in s;
    DigitOf(s[0], base);
    if |s| > 1 {
      var init := s[..|s| - 1];
      assert Numeral(init, base);
      NumeralPositive(init, base);
      MoreThanOne(Parse(init, base), DigitValue(s[|s| - 1]), base);
    } else {
      assert Parse(s[..0], base) == 0;
    }
  }

  /** A number is printed as the one numeral that stands for it. */
  lemma {:induction false} NumeralIff(s: string, n: nat, base: nat)
    requires 2 <= base <= 16
    ensures s == Print(n, base) <==> Numeral(s, base) && Parse(s, base) == n
    decreases |s|
  {
    hide IsDigit, DigitValue, Digit;
    PrintNumeral(n, base);
    ParsePrint(n, base);
    if Numeral(s, base) && Parse(s, base) == n {
      var init, last := s[..|s| - 1], s[|s| - 1];
      DigitOf(last, base);
      if |s| == 1 {
        assert init == "" && Parse(init, base) == 0 && s == [last];
      } else {
        assert Numeral(init, base);
        var q := Parse(init, base);
        NumeralPositive(init, base);
        MoreThanOne(q, DigitValue(last), base);
        DivParts(q, DigitValue(last), base);
        NumeralIff(init, q, base);
        assert s == init + [last];
      }
    }
  }

  /** Different numbers are printed differently. */
  lemma PrintInjective(m: nat, n: nat, base: nat)
    requires 2 <= base <= 16
    ensures Print(m, base) == Print(n, base) <==> m == n
  {
    ParsePrint(m, base);
    ParsePrint(n, base);
  }

  /** %d of an `unsigned int`: the value is taken as a two's complement number. */
  function PrintSigned(n: nat): string
    requires n < 0x1_0000_0000
  {
    if n < 0x8000_0000 then Print(n, 10) else ['-'] + Print(0x1_0000_0000 - n, 10)
  }

  /** The numeral of a two's complement number, with a minus sign if it is negative. */
  predicate SignedNumeral(s: string, n: nat)
    requires n < 0x1_0000_0000
  {
    if n < 0x8000_0000 then Numeral(s, 10) && Parse(s, 10) == n
    else s != "" && s[0] == '-' && Numeral(s[1..], 10) && Parse(s[1..], 10) == 0x1_0000_0000 - n
  }

  lemma SignedIff(s: string, n: nat)
    requires n < 0x1_0000_0000
    ensures s == PrintSigned(n) <==> SignedNumeral(s, n)
  {
    hide Print, Parse, Numeral;
    if n < 0x8000_0000 {
      NumeralIff(s, n, 10);
    } else {
      assert s != "" && s[0] == '-' ==> s == ['-'] + s[1..];
      assert PrintSigned(n)[1..] == Print(0x1_0000_0000 - n, 10);
      if s != "" {
        NumeralIff(s[1..], 0x1_0000_0000 - n, 10);
      }
    }
  }

  lemma PrintSignedInjective(m: nat, n: nat)
    requires m < 0x1_0000_0000 && n < 0x1_0000_0000
    ensures PrintSigned(m) == PrintSigned(n) <==> m == n
  {
    SignedIff(PrintSigned(m), m);
    SignedIff(PrintSigned(n), n);
    if m < 0x8000_0000 {
      NoMinus(PrintSigned(m));
    }
    if n < 0x8000_0000 {
      NoMinus(PrintSigned(n));
    }
    hide PrintSigned, Parse, Numeral;
  }

  lemma NoMinus(s: string)
    requires s != [] && forall c | c in s :: IsDigit(c, 10)
    ensures s[0] != '-'
  {
    assert s[0] in s;
  }
}
