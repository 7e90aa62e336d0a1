/**
 * `formatPrice`, which both pages define identically: a falsy price prints as "0";
 * otherwise the decimal digits get a space at every interior position followed by
 * a multiple of three digits, which is what `replace(/\B(?=(\d{3})+(?!\d))/g, " ")`
 * does to a run of digits.
 */
module PriceFormat {
  import opened Seqs
  import opened Text

  /** The regex matches before index `i` of the digit run `d`: interior, and a multiple of 3 digits follow. */
  predicate SeparatorBefore(d: string, i: int)
  {
    0 < i < |d| && (|d| - i) % 3 == 0
  }

  /** The replacement applied position by position, from index `i` to the end. */
  function Separate(d: string, i: nat): string
    requires i <= |d|
    decreases |d| - i
  {
    if i == |d| then "" else (if SeparatorBefore(d, i) then [' ', d[i]] else [d[i]]) + Separate(d, i + 1)
  }

  /** `formatPrice` on a whole, non-negative price. */
  function FormatPrice(price: nat): string
  {
    if price == 0 then "0" else Separate(DecimalString(price), 0)
  }

  /** Reference grouping built from the right: the last three digits after the grouping of the rest. */
  function GroupFromRight(d: string): string
  {
    if |d| <= 3 then d else GroupFromRight(d[..|d| - 3]) + " " + d[|d| - 3..]
  }

  function NotSpace(c: char): bool
  {
    c != ' '
  }

  /** The string with its spaces deleted. */
  function RemoveSpaces(s: string): string
  {
    Filter(s, NotSpace)
  }

  lemma {:induction false} SeparateShort(d: string, i: nat)
    requires |d| <= 3 && i <= |d|
    ensures Separate(d, i) == d[i..]
    decreases |d| - i
  {
    if i < |d| {
      SeparateShort(d, i + 1);
    }
  }

  /** Appending three more digits to a run adds one separator and those digits at the end. */
  lemma {:induction false} SeparateAppend(d: string, t: string, i: nat)
    requires |d| >= 1 && |t| == 3 && i <= |d|
    ensures Separate(d + t, i) == Separate(d, i) + [' '] + t
    decreases |d| - i
  {
    var e := d + t;
    if i == |d| {
      assert SeparatorBefore(e, i);
      assert !SeparatorBefore(e, i + 1) && !SeparatorBefore(e, i + 2);
      assert Separate(e, i + 3) == "";
      assert Separate(e, i + 2) == [t[2]];
      assert Separate(e, i + 1) == [t[1], t[2]];
    } else {
      SeparateAppend(d, t, i + 1);
      assert e[i] == d[i];
      assert SeparatorBefore(e, i) == SeparatorBefore(d, i);
    }
  }

  /** The left-to-right regex replacement agrees with grouping digits in threes from the right. */
  lemma {:induction false} SeparateIsGroupFromRight(d: string)
    requires |d| >= 1
    ensures Separate(d, 0) == GroupFromRight(d)
    decreases |d|
  {
    if |d| <= 3 {
      SeparateShort(d, 0);
    } else {
      var front, t := d[..|d| - 3], d[|d| - 3..];
      assert d == front + t;
      SeparateIsGroupFromRight(front);
      SeparateAppend(front, t, 0);
    }
  }

  /** A digit run never contains a space, so deleting spaces leaves it as it is. */
  lemma DigitsHaveNoSpace(t: string)
    requires AllDigits(t)
    ensures RemoveSpaces(t) == t
  {
    assert forall c :: c in t ==> NotSpace(c);
    FilterAll(t, NotSpace);
  }

  /** Deleting spaces from `g`, a space and a digit run is deleting them from `g` alone. */
  lemma RemoveSpacesAppend(g: string, t: string)
    requires AllDigits(t)
    ensures RemoveSpaces(g + " " + t) == RemoveSpaces(g) + t
  {
    assert g + " " + t == g + ([' '] + t);
    FilterConcat(g, [' '] + t, NotSpace);
    assert ([' '] + t)[1..] == t;
    assert Filter([' '] + t, NotSpace) == Filter(t, NotSpace);
    DigitsHaveNoSpace(t);
  }

  /** Deleting the spaces from a grouped digit run gives the digits back. */
  lemma {:induction false} GroupFromRightDigits(d: string)
    requires |d| >= 1 && AllDigits(d)
    ensures RemoveSpaces(GroupFromRight(d)) == d
    decreases |d|
  {
    if |d| <= 3 {
      DigitsHaveNoSpace(d);
    } else {
      var front, t := d[..|d| - 3], d[|d| - 3..];
      assert AllDigits(front) && AllDigits(t) by {
        forall i | 0 <= i < |front| ensures IsDigit(front[i]) {
          assert front[i] == d[i];
        }
        forall i | 0 <= i < |t| ensures IsDigit(t[i]) {
          assert t[i] == d[|d| - 3 + i];
        }
      }
      GroupFromRightDigits(front);
      assert GroupFromRight(d) == GroupFromRight(front) + " " + t;
      RemoveSpacesAppend(GroupFromRight(front), t);
      assert front + t == d;
    }
  }

  /** Every fourth character from the right of `r` is a space, and no other is. */
  predicate SpacedInFours(r: string)
  {
    forall i :: 0 <= i < |r| ==> (r[i] == ' ' <==> (|r| - i) % 4 == 0)
  }

  lemma SpacedInFoursStep(g: string, t: string)
    requires SpacedInFours(g) && |t| == 3 && AllDigits(t)
    ensures SpacedInFours(g + [' '] + t)
  {
    var r := g + [' '] + t;
    forall i | 0 <= i < |r| ensures r[i] == ' ' <==> (|r| - i) % 4 == 0 {
      if i < |g| {
        assert r[i] == g[i];
        var k := |g| - i;
        assert (k + 4) % 4 == k % 4;
      } else if i > |g| {
        assert r[i] == t[i - |g| - 1];
      }
    }
  }

  /**
   * Where the spaces of a grouped digit run are: counting from the right, every fourth
   * character and no other; and the length is not a multiple of 4, so the leading group
   * has 1 to 3 digits.
   */
  lemma {:induction false} GroupFromRightSpaces(d: string)
    requires |d| >= 1 && AllDigits(d)
    ensures SpacedInFours(GroupFromRight(d))
    ensures |GroupFromRight(d)| % 4 != 0
    decreases |d|
  {
    if |d| > 3 {
      var front, t := d[..|d| - 3], d[|d| - 3..];
      GroupFromRightSpaces(front);
      var g := GroupFromRight(front);
      assert AllDigits(t) by {
        forall i | 0 <= i < 3 ensures IsDigit(t[i]) {
          assert t[i] == d[|d| - 3 + i];
        }
      }
      SpacedInFoursStep(g, t);
      assert |GroupFromRight(d)| == |g| + 4;
    }
  }

  /**
   * What `formatPrice` prints for a whole price: "0" for 0 (falsy); otherwise digits and
   * spaces only, every fourth character from the right a space, a leading group of 1 to 3
   * digits, and deleting the spaces gives `price.toString()`, which denotes the price.
   */
  lemma FormatPriceMeaning(price: nat)
    ensures var r := FormatPrice(price);
      && (price == 0 ==> r == "0")
      && (price > 0 ==>
            && RemoveSpaces(r) == DecimalString(price)
            && DecimalValue(RemoveSpaces(r)) == price
            && (forall i :: 0 <= i < |r| ==> IsDigit(r[i]) || r[i] == ' ')
            && SpacedInFours(r)
            && 1 <= |r| % 4 <= 3)
  {
    if price > 0 {
      var d := DecimalString(price);
      SeparateIsGroupFromRight(d);
      GroupFromRightDigits(d);
      GroupFromRightSpaces(d);
      DecimalRoundTrip(price);
      var r := FormatPrice(price);
      forall i | 0 <= i < |r| && r[i] != ' ' ensures IsDigit(r[i]) {
        FilterMembers(r, NotSpace);
        assert r[i] in RemoveSpaces(r);
      }
    }
  }
}
