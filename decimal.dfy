/** Unsigned decimal numerals: what strconv.ParseUint(s, 10, bits) accepts,
    and what fmt's %d prints for a natural number. */
module Decimal {
  import opened Wrappers

  const Uint32Bound: nat := 0x1_0000_0000
  const Uint64Bound: nat := 0x1_0000_0000_0000_0000

  predicate IsDigit(c: char) { '0' <= c <= '9' }

  predicate AllDigits(s: string) {
    forall i :: 0 <= i < |s| ==> IsDigit(s[i])
  }

  function DigitValue(c: char): nat
    requires IsDigit(c)
  {
    (c as int) - ('0' as int)
  }

  function DigitChar(d: nat): (c: char)
    requires d < 10
    ensures IsDigit(c) && DigitValue(c) == d
  {
    (('0' as int) + d) as char
  }

  /** The number a string of digits denotes, read most significant digit first. */
  function Value(s: string): nat
    requires AllDigits(s)
  {
    if s == [] then 0 else Value(s[..|s| - 1]) * 10 + DigitValue(s[|s| - 1])
  }

  /** The shortest decimal numeral of n, without sign or leading zeros. */
  function Show(n: nat): (s: string)
    ensures |s| >= 1 && AllDigits(s)
    ensures |s| > 1 ==> s[0] != '0'
  {
    if n < 10 then [DigitChar(n)] else Show(n / 10) + [DigitChar(n % 10)]
  }

  /** strconv.ParseUint(s, 10, bits), with 2^bits given as bound: digits only
      (no sign, no underscore, not empty) and a value below the bound. */
  function ParseUint(s: string, bound: nat): (r: Option<nat>)
    ensures r.Some? ==> r.value < bound
    ensures s == [] ==> r.None?
    ensures (exists i :: 0 <= i < |s| && !IsDigit(s[i])) ==> r.None?
    ensures r.Some? ==> AllDigits(s) && r.value == Value(s)
    ensures |s| > 0 && AllDigits(s) && Value(s) < bound ==> r == Some(Value(s))
    ensures |s| > 0 && AllDigits(s) && Value(s) >= bound ==> r.None?
  {
    if |s| > 0 && AllDigits(s) && Value(s) < bound then Some(Value(s)) else None
  }

  lemma {:induction false} ValueOfShow(n: nat)
    ensures Value(Show(n)) == n
  {
    if n >= 10 {
      var s := Show(n);
      assert s[..|s| - 1] == Show(n / 10);
      ValueOfShow(n / 10);
    }
  }

  /** Printing then parsing gives the number back. */
  lemma ParseShow(n: nat, bound: nat)
    requires n < bound
    ensures ParseUint(Show(n), bound) == Some(n)
  {
    ValueOfShow(n);
  }

  /** A leading zero does not change the value of a numeral. */
  lemma {:induction false} ValueLeadingZero(s: string)
    requires AllDigits(s)
    ensures AllDigits("0" + s) && Value("0" + s) == Value(s)
  {
    if s != [] {
      var t := "0" + s;
      assert t[..|t| - 1] == "0" + s[..|s| - 1];
      assert t[|t| - 1] == s[|s| - 1];
      ValueLeadingZero(s[..|s| - 1]);
    }
  }

  /** Leading zeros are accepted, unlike in the numerals Show prints:
      "007" parses as 7. */
  lemma ParseLeadingZeros(s: string, bound: nat)
    requires |s| > 0
    ensures ParseUint("0" + s, bound) == ParseUint(s, bound)
  {
    if AllDigits(s) {
      ValueLeadingZero(s);
    } else {
      var i :| 0 <= i < |s| && !IsDigit(s[i]);
      assert ("0" + s)[i + 1] == s[i];
    }
  }

  lemma LeadingZerosExample()
    ensures ParseUint("007", Uint32Bound) == Some(7)
  {
    ParseLeadingZeros("07", Uint32Bound);
    ParseLeadingZeros("7", Uint32Bound);
    assert "0" + "07" == "007";
    assert "0" + "7" == "07";
  }

  /** Distinct numbers print differently. */
  lemma ShowInjective(m: nat, n: nat)
    requires Show(m) == Show(n)
    ensures m == n
  {
    ValueOfShow(m);
    ValueOfShow(n);
  }
}
