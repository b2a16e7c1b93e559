/**
 * Python's fixed-point formatting of a decimal (`f'{d:.Nf}'` and
 * `f'{d:,.Nf}'`) and the reading of such text back into a number.
 * A decimal is rounded to N places half to even (the default rounding of
 * Python's decimal context), written as a sign, the whole digits
 * (optionally grouped by threes with commas) and, when N > 0, a point and
 * exactly N fraction digits.
 */
module DecimalText {
  import opened Wrappers
  import opened Numeric

  predicate IsDigit(c: char)
  {
    '0' <= c <= '9'
  }

  predicate AllDigits(s: string)
  {
    forall i :: 0 <= i < |s| ==> IsDigit(s[i])
  }

  function Digit(d: nat): (c: char)
    requires d < 10
    ensures IsDigit(c)
  {
    ('0' as int + d) as char
  }

  function DigitOf(c: char): (d: nat)
    requires IsDigit(c)
    ensures d < 10 && Digit(d) == c
  {
    c as int - '0' as int
  }

  /** `d` followed by `count` zero digits: d * 10^count. */
  function Shifted(d: nat, count: nat): nat
  {
    if count == 0 then d else Shifted(d, count - 1) * 10
  }

  /** `y` * 10^count. */
  function ScaleUp(y: real, count: nat): real
  {
    if count == 0 then y else ScaleUp(y, count - 1) * 10.0
  }

  lemma {:induction false} ScaleUpNegate(y: real, count: nat)
    ensures ScaleUp(-y, count) == -ScaleUp(y, count)
  {
    if count > 0 {
      ScaleUpNegate(y, count - 1);
    }
  }

  lemma {:induction false} ScaleUpNonNegative(y: real, count: nat)
    requires y >= 0.0
    ensures ScaleUp(y, count) >= 0.0
  {
    if count > 0 {
      ScaleUpNonNegative(y, count - 1);
    }
  }

  /** The decimal digits of `n`, without leading zeros ("0" for zero). */
  function DigitString(n: nat): (s: string)
    ensures |s| >= 1 && AllDigits(s)
    ensures n > 0 ==> s[0] != '0'
  {
    if n < 10 then [Digit(n)] else DigitString(n / 10) + [Digit(n % 10)]
  }

  /** The last `width` decimal digits of `n`, padded with leading zeros. */
  function Padded(n: nat, width: nat): (s: string)
    ensures |s| == width && AllDigits(s)
  {
    if width == 0 then [] else Padded(n / 10, width - 1) + [Digit(n % 10)]
  }

  /** The number a string of decimal digits denotes (zero for the empty string). */
  function DigitValue(s: string): nat
    requires AllDigits(s)
  {
    if s == [] then 0 else DigitValue(s[..|s| - 1]) * 10 + DigitOf(s[|s| - 1])
  }

  lemma {:induction false} DigitStringReadsBack(n: nat)
    ensures DigitValue(DigitString(n)) == n
  {
    if n >= 10 {
      DigitStringReadsBack(n / 10);
      var s := DigitString(n);
      assert s[..|s| - 1] == DigitString(n / 10);
    }
  }

  /** `n` without its last `count` decimal digits. */
  function DropDigits(n: nat, count: nat): nat
  {
    if count == 0 then n else DropDigits(n / 10, count - 1)
  }

  /** The leading digits and the padded last `width` digits together give `n` back. */
  lemma {:induction false} DigitsSplit(n: nat, width: nat)
    ensures Shifted(DropDigits(n, width), width) + DigitValue(Padded(n, width)) == n
  {
    if width > 0 {
      DigitsSplit(n / 10, width - 1);
      var s := Padded(n, width);
      assert s[..|s| - 1] == Padded(n / 10, width - 1);
      var d := DropDigits(n, width);
      var v := DigitValue(Padded(n / 10, width - 1));
      assert Shifted(d, width - 1) + v == n / 10;
      assert DigitValue(s) == v * 10 + n % 10;
    }
  }

  /** A digit string with a comma before every group of three digits, counted from the right. */
  function Grouped(s: string): (g: string)
    decreases |s|
  {
    if |s| <= 3 then s else Grouped(s[..|s| - 3]) + "," + s[|s| - 3..]
  }

  /** The string with its commas removed. */
  function Ungrouped(s: string): (u: string)
  {
    if s == [] then [] else Ungrouped(s[..|s| - 1]) + (if s[|s| - 1] == ',' then [] else [s[|s| - 1]])
  }

  lemma {:induction false} UngroupedAppend(a: string, b: string)
    ensures Ungrouped(a + b) == Ungrouped(a) + Ungrouped(b)
    decreases |b|
  {
    if b != [] {
      var b' := b[..|b| - 1];
      assert (a + b)[..|a + b| - 1] == a + b';
      UngroupedAppend(a, b');
    } else {
      assert a + b == a;
    }
  }

  lemma {:induction false} UngroupedDigits(s: string)
    requires AllDigits(s)
    ensures Ungrouped(s) == s
  {
    if s != [] {
      UngroupedDigits(s[..|s| - 1]);
    }
  }

  /** Removing the commas from a grouped digit string gives the digits back. */
  lemma {:induction false} GroupedReadsBack(s: string)
    requires AllDigits(s)
    ensures Ungrouped(Grouped(s)) == s
    decreases |s|
  {
    if |s| <= 3 {
      UngroupedDigits(s);
    } else {
      var front, back := s[..|s| - 3], s[|s| - 3..];
      var gf := Grouped(front);
      assert Grouped(s) == (gf + ",") + back;
      assert Ungrouped((gf + ",") + back) == Ungrouped(gf + ",") + back by {
        UngroupedAppend(gf + ",", back);
        UngroupedDigits(back);
      }
      assert Ungrouped(gf + ",") == front by {
        UngroupedAppend(gf, ",");
        assert Ungrouped(",") == [];
        GroupedReadsBack(front);
      }
      assert front + back == s;
    }
  }

  lemma {:induction false} GroupedFront(s: string)
    requires s != []
    ensures |Grouped(s)| >= 1 && Grouped(s)[0] == s[0]
    decreases |s|
  {
    if |s| > 3 {
      GroupedFront(s[..|s| - 3]);
    }
  }

  /**
   * The commas of a grouped digit string sit exactly at every fourth
   * position counted from the right, so every group but the first has
   * three digits.
   */
  lemma {:induction false} GroupsOfThree(s: string)
    requires AllDigits(s)
    ensures forall i :: 0 <= i < |Grouped(s)| ==> (Grouped(s)[i] == ',' <==> (|Grouped(s)| - i) % 4 == 0)
    decreases |s|
  {
    if |s| > 3 {
      var front, back := s[..|s| - 3], s[|s| - 3..];
      GroupsOfThree(front);
      var g, gf := Grouped(s), Grouped(front);
      assert g == gf + "," + back;
      forall i | 0 <= i < |g|
        ensures g[i] == ',' <==> (|g| - i) % 4 == 0
      {
        CommaAt(gf, back, i);
      }
    }
  }

  /** Appending a comma and three digits keeps the commas at every fourth position from the right. */
  lemma CommaAt(gf: string, back: string, i: int)
    requires |back| == 3 && AllDigits(back) && 0 <= i < |gf| + 4
    requires i < |gf| ==> (gf[i] == ',' <==> (|gf| - i) % 4 == 0)
    ensures var g := gf + "," + back;
      g[i] == ',' <==> (|g| - i) % 4 == 0
  {
    var g := gf + "," + back;
    if i < |gf| {
      assert g[i] == gf[i];
      assert (|g| - i) % 4 == (|gf| - i) % 4;
    } else if i > |gf| {
      assert g[i] == back[i - |gf| - 1];
    }
  }

  /**
   * Rounding to the nearest integer, ties to the even neighbour: the
   * result is within one half of `y`, and at exactly one half it is even.
   */
  function RoundHalfEven(y: real): (r: int)
    ensures -0.5 <= r as real - y <= 0.5
    ensures (r as real - y == 0.5 || y - r as real == 0.5) ==> r % 2 == 0
  {
    var f := y.Floor;
    var rest := y - f as real;
    if rest < 0.5 then f
    else if rest > 0.5 then f + 1
    else if f % 2 == 0 then f
    else f + 1
  }

  /** No other integer is that close: half-to-even rounding is unique. */
  lemma RoundHalfEvenUnique(y: real, n: int)
    requires -0.5 <= n as real - y <= 0.5
    requires (n as real - y == 0.5 || y - n as real == 0.5) ==> n % 2 == 0
    ensures n == RoundHalfEven(y)
  {
  }

  /** The magnitude of `x` in units of 10^-places, rounded half to even. */
  function RoundedMagnitude(x: real, places: nat): nat
  {
    var y := ScaleUp(Magnitude(x), places);
    ScaleUpNonNegative(Magnitude(x), places);
    RoundHalfEven(y)
  }

  /** `x` in units of 10^-places, rounded half to even, with the sign of `x`. */
  function ScaledRound(x: real, places: nat): int
  {
    if x < 0.0 then -(RoundedMagnitude(x, places) as int) else RoundedMagnitude(x, places)
  }

  /** The rounded count is within half a unit of the exact one. */
  lemma ScaledRoundNearest(x: real, places: nat)
    ensures var d := ScaledRound(x, places) as real - ScaleUp(x, places);
      -0.5 <= d <= 0.5
  {
    if x < 0.0 {
      ScaleUpNegate(x, places);
    }
  }

  /** Whole digits, grouped or not, then the fraction digits after a point when there are any. */
  function Layout(whole: string, fraction: string, grouped: bool): string
  {
    (if grouped then Grouped(whole) else whole) + (if fraction != [] then "." + fraction else "")
  }

  /** `f'{x:.{places}f}'`, or `f'{x:,.{places}f}'` when grouped. */
  function FixedText(x: real, places: nat, grouped: bool): string
  {
    SignedText(x < 0.0, RoundedMagnitude(x, places), places, grouped)
  }

  /** A sign, then the count `c` of 10^-places written with `places` decimals. */
  function SignedText(negative: bool, c: nat, places: nat, grouped: bool): string
  {
    (if negative then "-" else "") + Layout(DigitString(DropDigits(c, places)), Padded(c, places), grouped)
  }

  /** The count of 10^-|fraction| that whole digits and fraction digits denote. */
  function FixedValue(whole: string, fraction: string): nat
    requires AllDigits(whole) && AllDigits(fraction)
  {
    Shifted(DigitValue(whole), |fraction|) + DigitValue(fraction)
  }

  /** Reads unsigned fixed-point text with exactly `places` decimals as a count of 10^-places. */
  function ReadUnsigned(s: string, places: nat, grouped: bool): Option<nat>
  {
    var split := if places > 0 then |s| - places - 1 else |s|;
    if split < 0 || (places > 0 && s[split] != '.') then None
    else
      var whole := if grouped then Ungrouped(s[..split]) else s[..split];
      var fraction := if places > 0 then s[split + 1..] else "";
      if whole == [] || !AllDigits(whole) || !AllDigits(fraction) then None
      else Some(FixedValue(whole, fraction))
  }

  /** Reads fixed-point text with exactly `places` decimals back as a signed count of 10^-places. */
  function ReadFixed(s: string, places: nat, grouped: bool): Option<int>
  {
    if |s| > 0 && s[0] == '-' then
      match ReadUnsigned(s[1..], places, grouped)
      case Some(c) => Some(-(c as int))
      case None => None
    else
      match ReadUnsigned(s, places, grouped)
      case Some(c) => Some(c as int)
      case None => None
  }

  /** A layout of digit strings reads back as the digits it was made of, and starts with a digit. */
  lemma LayoutReadsBack(whole: string, fraction: string, grouped: bool)
    requires AllDigits(whole) && whole != [] && AllDigits(fraction)
    ensures var s := Layout(whole, fraction, grouped);
      && ReadUnsigned(s, |fraction|, grouped) == Some(FixedValue(whole, fraction))
      && s[0] == whole[0]
  {
    var g := if grouped then Grouped(whole) else whole;
    if grouped {
      GroupedFront(whole);
      GroupedReadsBack(whole);
    }
    assert (if grouped then Ungrouped(g) else g) == whole;
    var places := |fraction|;
    var f := if fraction != [] then "." + fraction else "";
    var s := g + f;
    var split := if places > 0 then |s| - places - 1 else |s|;
    PointSplit(g, fraction);
  }

  /** Where the point of a layout sits, and what lies on either side of it. */
  lemma PointSplit(g: string, fraction: string)
    ensures var s := g + (if fraction != [] then "." + fraction else "");
      && s[..|g|] == g
      && (fraction != [] ==> |s| == |g| + 1 + |fraction| && s[|g|] == '.' && s[|g| + 1..] == fraction)
      && (fraction == [] ==> s == g)
  {
  }

  /** A sign in front of unsigned text that starts with a digit is read as that sign. */
  lemma ReadSigned(negative: bool, t: string, c: nat, places: nat, grouped: bool)
    requires ReadUnsigned(t, places, grouped) == Some(c)
    requires |t| > 0 && IsDigit(t[0])
    ensures ReadFixed((if negative then "-" else "") + t, places, grouped) == Some(if negative then -(c as int) else c)
  {
    var s := (if negative then "-" else "") + t;
    if negative {
      assert s[1..] == t;
    } else {
      assert s == t;
    }
  }

  lemma SignedTextReadsBack(negative: bool, c: nat, places: nat, grouped: bool)
    ensures ReadFixed(SignedText(negative, c, places, grouped), places, grouped) == Some(if negative then -(c as int) else c)
  {
    var q := DropDigits(c, places);
    var w, fr := DigitString(q), Padded(c, places);
    var t := Layout(w, fr, grouped);
    LayoutReadsBack(w, fr, grouped);
    DigitStringReadsBack(q);
    DigitsSplit(c, places);
    assert FixedValue(w, fr) == c;
    ReadSigned(negative, t, c, places, grouped);
  }

  /** Text without separators is never empty and ends in a digit. */
  lemma FixedTextEndsInDigit(x: real, places: nat)
    ensures var t := FixedText(x, places, false);
      |t| > 0 && IsDigit(t[|t| - 1])
  {
    var c := RoundedMagnitude(x, places);
    var w, fr := DigitString(DropDigits(c, places)), Padded(c, places);
    var l := Layout(w, fr, false);
    if fr != [] {
      assert l[|l| - 1] == fr[|fr| - 1];
    } else {
      assert l == w;
    }
    var t := FixedText(x, places, false);
    assert t == (if x < 0.0 then "-" else "") + l;
    assert t[|t| - 1] == l[|l| - 1];
  }

  /** Text with decimals ends in a point followed by exactly `places` digits. */
  lemma FixedTextFraction(x: real, places: nat, grouped: bool)
    requires places > 0
    ensures var t := FixedText(x, places, grouped);
      && |t| >= places + 2
      && t[|t| - places - 1] == '.'
      && AllDigits(t[|t| - places..])
  {
    var c := RoundedMagnitude(x, places);
    var w, fr := DigitString(DropDigits(c, places)), Padded(c, places);
    var front := (if x < 0.0 then "-" else "") + (if grouped then Grouped(w) else w);
    if grouped {
      GroupedFront(w);
    }
    var t := FixedText(x, places, grouped);
    assert t == front + "." + fr;
    assert t[|t| - places..] == fr;
  }

  /**
   * Fixed-point text reads back as the number rounded half to even to
   * its places: the text loses nothing but that rounding.
   */
  lemma FixedReadsBack(x: real, places: nat, grouped: bool)
    ensures ReadFixed(FixedText(x, places, grouped), places, grouped) == Some(ScaledRound(x, places))
  {
    var c := RoundedMagnitude(x, places);
    SignedTextReadsBack(x < 0.0, c, places, grouped);
    assert FixedText(x, places, grouped) == SignedText(x < 0.0, c, places, grouped);
    assert ScaledRound(x, places) == if x < 0.0 then -(c as int) else c;
  }
}
