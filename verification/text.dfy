/**
 * The string operations the storefront relies on: `toLowerCase`, `includes`,
 * the default order of `Array.prototype.sort` on strings, and decimal digits
 * (`Number.prototype.toString` and `parseInt` on non-negative integers).
 */
module Text {

  /** The capital letters whose lowercase form is modelled: A..Z, А..Я and Ё. */
  predicate IsUpperModelled(c: char)
  {
    'A' <= c <= 'Z' || '\U{0410}' <= c <= '\U{042F}' || c == '\U{0401}'
  }

  /** The Latin and Cyrillic alphabets, capitals and small letters at the same positions. */
  const LatinCapitals: string := "ABCDEFGHIJKLMNOPQRSTUVWXYZ"
  const LatinSmalls: string := "abcdefghijklmnopqrstuvwxyz"
  const CyrillicCapitals: string := "АБВГДЕЖЗИЙКЛМНОПРСТУФХЦЧШЩЪЫЬЭЮЯ"
  const CyrillicSmalls: string := "абвгдежзийклмнопрстуфхцчшщъыьэюя"

  /** Every modelled capital, and at the same position the small letter `toLowerCase` gives it. */
  const Capitals: string := LatinCapitals + CyrillicCapitals + "Ё"
  const Smalls: string := LatinSmalls + CyrillicSmalls + "ё"

  lemma LatinCapitalsAt(k: nat)
    requires k < |LatinCapitals|
    ensures LatinCapitals[k] as int == 'A' as int + k
  {
    if k < 7 {} else if k < 13 {} else if k < 20 {}
  }

  lemma LatinSmallsAt(k: nat)
    requires k < |LatinSmalls|
    ensures LatinSmalls[k] as int == 'a' as int + k
  {
    if k < 7 {} else if k < 13 {} else if k < 20 {}
  }

  lemma CyrillicCapitalsAt(k: nat)
    requires k < |CyrillicCapitals|
    ensures CyrillicCapitals[k] as int == 0x0410 + k
  {
    if k < 8 {} else if k < 16 {} else if k < 24 {}
  }

  lemma CyrillicSmallsAt(k: nat)
    requires k < |CyrillicSmalls|
    ensures CyrillicSmalls[k] as int == 0x0430 + k
  {
    if k < 8 {} else if k < 16 {} else if k < 24 {}
  }

  /** Position by position, a small letter lies 32 code points above its capital, except for Ё and ё. */
  lemma TableShape(k: nat)
    requires k < |Capitals|
    ensures k < 26 ==> Capitals[k] as int == 'A' as int + k
    ensures 26 <= k < 58 ==> Capitals[k] as int == 0x0410 + (k - 26)
    ensures k < 58 ==> Smalls[k] as int == Capitals[k] as int + 32
    ensures k == 58 ==> Capitals[k] == '\U{0401}' && Smalls[k] == '\U{0451}'
    ensures k < 58 ==> Smalls[k] == (Capitals[k] as int + 32) as char
    ensures k < 26 <==> 'A' <= Capitals[k] <= 'Z'
    ensures 26 <= k < 58 <==> '\U{0410}' <= Capitals[k] <= '\U{042F}'
  {
    if k < 26 {
      LatinCapitalsAt(k);
      LatinSmallsAt(k);
    } else if k < 58 {
      CyrillicCapitalsAt(k - 26);
      CyrillicSmallsAt(k - 26);
    }
  }

  /** Each entry pairs a modelled capital with the letter 32 code points above it, or Ё with ё. */
  lemma TableEntry(k: nat)
    requires k < |Capitals|
    ensures IsUpperModelled(Capitals[k])
    ensures Smalls[k] == if Capitals[k] == '\U{0401}' then '\U{0451}' else (Capitals[k] as int + 32) as char
  {
    TableShape(k);
  }

  /** The table lists exactly the modelled capitals. */
  lemma CapitalsAreModelled(c: char)
    ensures IsUpperModelled(c) <==> c in Capitals
  {
    if 'A' <= c <= 'Z' {
      var k := c as int - 'A' as int;
      TableShape(k);
      assert Capitals[k] == c;
    } else if '\U{0410}' <= c <= '\U{042F}' {
      var k := c as int - 0x0410 + 26;
      TableShape(k);
      assert Capitals[k] == c;
    } else if c == '\U{0401}' {
      TableShape(58);
    } else if c in Capitals {
      var k :| 0 <= k < |Capitals| && Capitals[k] == c;
      TableShape(k);
    }
  }

  /**
   * `toLowerCase` on one character, for the Latin and basic Cyrillic alphabets:
   * exactly the modelled capitals change, and none is left behind.
   */
  function LowerChar(c: char): (r: char)
    ensures r == c <==> !IsUpperModelled(c)
    ensures !IsUpperModelled(r)
    ensures forall k :: 0 <= k < |Capitals| && c == Capitals[k] ==> r == Smalls[k]
  {
    var r :=
      if 'A' <= c <= 'Z' then (c as int + 32) as char
      else if '\U{0410}' <= c <= '\U{042F}' then (c as int + 32) as char  // А..Я to а..я
      else if c == '\U{0401}' then '\U{0451}'                            // Ё to ё
      else c;
    assert forall k :: 0 <= k < |Capitals| && c == Capitals[k] ==> r == Smalls[k] by {
      forall k | 0 <= k < |Capitals| && c == Capitals[k] {
        TableEntry(k);
      }
    }
    r
  }

  /**
   * `toLowerCase` on a string: the same length; a character changes exactly when it
   * is a modelled capital, and the result holds no modelled capital.
   */
  function Lower(s: string): (r: string)
    ensures |r| == |s|
    ensures forall i :: 0 <= i < |s| ==> (r[i] == s[i] <==> !IsUpperModelled(s[i]))
    ensures forall i :: 0 <= i < |s| ==> !IsUpperModelled(r[i])
    ensures forall i, k :: 0 <= i < |s| && 0 <= k < |Capitals| && s[i] == Capitals[k] ==> r[i] == Smalls[k]
  {
    seq(|s|, i requires 0 <= i < |s| => LowerChar(s[i]))
  }

  /** Lowercasing the table of capitals gives the table of small letters. */
  lemma LowerOfCapitals()
    ensures Lower(Capitals) == Smalls
  {
    assert |Capitals| == |Smalls|;
    forall k | 0 <= k < |Capitals|
      ensures Lower(Capitals)[k] == Smalls[k]
    {
    }
  }

  /** A string without modelled capitals is its own lowercase form, so lowercasing twice changes nothing. */
  lemma LowerIdempotent(s: string)
    ensures Lower(Lower(s)) == Lower(s)
  {
    var r := Lower(s);
    assert forall i :: 0 <= i < |r| ==> Lower(r)[i] == r[i];
  }

  /** `q` occurs in `s` starting at index `i`. */
  predicate OccursAt(s: string, q: string, i: nat)
  {
    i + |q| <= |s| && s[i..i + |q|] == q
  }

  /** The reference meaning of "`s` contains `q`": some index where `q` starts. */
  ghost predicate Occurs(s: string, q: string)
  {
    exists i: nat :: OccursAt(s, q, i)
  }

  /** `String.prototype.includes`: tries each start position from the left. */
  function Includes(s: string, q: string): (r: bool)
    ensures r <==> Occurs(s, q)
    decreases |s|
  {
    if |q| > |s| then false
    else if s[..|q|] == q then (assert OccursAt(s, q, 0); true)
    else (
      var r := Includes(s[1..], q);
      assert r ==> Occurs(s, q) by {
        if r {
          var i: nat :| OccursAt(s[1..], q, i);
          assert s[1..][i..i + |q|] == s[i + 1..i + 1 + |q|];
          assert OccursAt(s, q, i + 1);
        }
      }
      assert Occurs(s, q) ==> r by {
        if Occurs(s, q) {
          var i: nat :| OccursAt(s, q, i);
          assert i != 0;
          assert s[1..][i - 1..i - 1 + |q|] == s[i..i + |q|];
          assert OccursAt(s[1..], q, i - 1);
        }
      }
      r)
  }

  /**
   * The order `Array.prototype.sort` uses on strings by default, compared character by
   * character; here characters are code points.
   */
  predicate StrLt(a: string, b: string)
  {
    if a == [] then b != []
    else if b == [] then false
    else if a[0] != b[0] then a[0] < b[0]
    else StrLt(a[1..], b[1..])
  }

  lemma {:induction false} StrLtIrreflexive(a: string)
    ensures !StrLt(a, a)
  {
    if a != [] {
      StrLtIrreflexive(a[1..]);
    }
  }

  lemma {:induction false} StrLtTransitive(a: string, b: string, c: string)
    requires StrLt(a, b) && StrLt(b, c)
    ensures StrLt(a, c)
  {
    if a != [] && a[0] == b[0] && b[0] == c[0] {
      StrLtTransitive(a[1..], b[1..], c[1..]);
    }
  }

  lemma {:induction false} StrLtTotal(a: string, b: string)
    ensures a == b || StrLt(a, b) || StrLt(b, a)
  {
    if a != [] && b != [] && a[0] == b[0] {
      StrLtTotal(a[1..], b[1..]);
      assert a == [a[0]] + a[1..] && b == [b[0]] + b[1..];
    }
  }

  /** Strictly ascending in the default sort order: sorted and without repeats. */
  predicate StrictlySorted(s: seq<string>)
  {
    forall i, j :: 0 <= i < j < |s| ==> StrLt(s[i], s[j])
  }

  predicate IsDigit(c: char)
  {
    '0' <= c <= '9'
  }

  predicate AllDigits(s: string)
  {
    forall i :: 0 <= i < |s| ==> IsDigit(s[i])
  }

  function DigitChar(d: nat): (c: char)
    requires d < 10
    ensures IsDigit(c)
  {
    ('0' as int + d) as char
  }

  function DigitValue(c: char): nat
    requires IsDigit(c)
  {
    c as int - '0' as int
  }

  /** `n.toString()` for a non-negative integer: its decimal digits, no leading zero. */
  function DecimalString(n: nat): (r: string)
    ensures |r| >= 1 && AllDigits(r)
    ensures n > 0 ==> r[0] != '0'
  {
    if n < 10 then [DigitChar(n)] else DecimalString(n / 10) + [DigitChar(n % 10)]
  }

  /** The number a string of decimal digits denotes. */
  function DecimalValue(s: string): nat
    requires AllDigits(s)
  {
    if s == [] then 0 else DecimalValue(s[..|s| - 1]) * 10 + DigitValue(s[|s| - 1])
  }

  lemma {:induction false} DecimalRoundTrip(n: nat)
    ensures DecimalValue(DecimalString(n)) == n
  {
    if n >= 10 {
      DecimalRoundTrip(n / 10);
      var s := DecimalString(n);
      assert s[..|s| - 1] == DecimalString(n / 10);
    }
  }

  /** A digit string is its own longest digit prefix. */
  lemma {:induction false} LeadingDigitsOfDigits(s: string)
    requires AllDigits(s)
    ensures LeadingDigits(s) == s
  {
    if s != [] {
      LeadingDigitsOfDigits(s[1..]);
      assert [s[0]] + s[1..] == s;
    }
  }

  /** A hexadecimal digit, in either case. */
  predicate IsHexDigit(c: char)
  {
    IsDigit(c) || 'a' <= c <= 'f' || 'A' <= c <= 'F'
  }

  predicate AllHexDigits(s: string)
  {
    forall i :: 0 <= i < |s| ==> IsHexDigit(s[i])
  }

  function HexDigitValue(c: char): (v: nat)
    requires IsHexDigit(c)
    ensures v < 16
  {
    if IsDigit(c) then DigitValue(c)
    else if 'a' <= c <= 'f' then c as int - 'a' as int + 10
    else c as int - 'A' as int + 10
  }

  /** The number a string of hexadecimal digits denotes. */
  function HexValue(s: string): nat
    requires AllHexDigits(s)
  {
    if s == [] then 0 else HexValue(s[..|s| - 1]) * 16 + HexDigitValue(s[|s| - 1])
  }

  /** The longest prefix of `s` made of hexadecimal digits. */
  function LeadingHexDigits(s: string): (r: string)
    ensures AllHexDigits(r) && r <= s
    ensures |r| < |s| ==> !IsHexDigit(s[|r|])
  {
    if s != [] && IsHexDigit(s[0]) then [s[0]] + LeadingHexDigits(s[1..]) else []
  }

  /** Hexadecimal digits followed by anything that does not start with one: the digits are the leading run. */
  lemma {:induction false} LeadingHexDigitsOf(h: string, rest: string)
    requires AllHexDigits(h)
    requires rest == [] || !IsHexDigit(rest[0])
    ensures LeadingHexDigits(h + rest) == h
  {
    if h != [] {
      assert (h + rest)[1..] == h[1..] + rest;
      LeadingHexDigitsOf(h[1..], rest);
      assert [h[0]] + h[1..] == h;
    }
  }

  /** The longest prefix of `s` made of decimal digits. */
  function LeadingDigits(s: string): (r: string)
    ensures AllDigits(r) && r <= s
    ensures |r| < |s| ==> !IsDigit(s[|r|])
  {
    if s != [] && IsDigit(s[0]) then [s[0]] + LeadingDigits(s[1..]) else []
  }
}
