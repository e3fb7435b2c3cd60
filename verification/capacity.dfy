/** Printing of sizes: with thousands separated, and rounded to a unit. */
module Capacity {
  import opened Arithmetic
  import opened Text

  /** Sizes are 64-bit words. */
  type Size = n: nat | n < 0x1_0000_0000_0000_0000

  // ----- Groups of three digits ---------------------------------------------------------------

  function Power(r: nat): (d: nat)
    ensures d > 0
  {
    if r == 0 then 1 else Power(r - 1) * 1000
  }

  /** The number of groups after the first. */
  function Rank(n: nat): nat {
    if n < 1000 then 0 else Rank(n / 1000) + 1
  }

  /** Three digits, with leading zeros. */
  function Padded(g: nat): (s: string)
    requires g < 1000
    ensures |s| == 3
  {
    [Digit(g / 100), Digit(g / 10 % 10), Digit(g % 10)]
  }

  /** The digits with a separator before every group of three but the first. */
  function Separated(n: nat, separator: string): string {
    if n < 1000 then PrintNat(n) else Separated(n / 1000, separator) + (separator + Padded(n % 1000))
  }

  // ----- What is printed ---------------------------------------------------------------------------

  /** Without the separators, the text is the number; its first group has no leading zero. */
  lemma {:induction false} GroupsAreTheNumber(n: nat)
    ensures Separated(n, "") == PrintNat(n)
    ensures n > 0 ==> PrintNat(n)[0] != '0'
  {
    PrintNatDigits(n);
    if n >= 1000 {
      GroupsAreTheNumber(n / 1000);
      LastGroup(n);
      assert "" + Padded(n % 1000) == Padded(n % 1000);
    }
  }

  /** The last three digits of a number. */
  lemma LastGroup(n: nat)
    requires n >= 1000
    ensures PrintNat(n) == PrintNat(n / 1000) + Padded(n % 1000)
  {
    ThreeDigits(n);
    hide Padded;
    PrintNatEnd(n);
    PrintNatEnd(n / 10);
    PrintNatEnd(n / 100);
    AppendThree(PrintNat(n / 1000), Digit(n / 100 % 10), Digit(n / 10 % 10), Digit(n % 10));
  }

  lemma PrintNatEnd(n: nat)
    requires n >= 10
    ensures PrintNat(n) == PrintNat(n / 10) + [Digit(n % 10)]
  {
  }

  lemma AppendThree(s: string, a: char, b: char, c: char)
    ensures s + [a] + [b] + [c] == s + [a, b, c]
  {
  }

  lemma ThreeDigits(n: nat)
    requires n >= 1000
    ensures n / 10 / 10 == n / 100 && n / 100 / 10 == n / 1000
    ensures Padded(n % 1000) == [Digit(n / 100 % 10), Digit(n / 10 % 10), Digit(n % 10)]
  {
    DigitsOf(n);
    hide Digit;
  }

  lemma DigitsOf(n: nat)
    ensures n / 10 / 10 == n / 100 && n / 100 / 10 == n / 1000
    ensures n % 1000 / 100 == n / 100 % 10 && n % 1000 / 10 % 10 == n / 10 % 10 && n % 1000 % 10 == n % 10
  {
  }

  lemma {:induction false} RankBounds(n: nat)
    ensures n > 0 ==> Power(Rank(n)) <= n
    ensures n < Power(Rank(n) + 1)
  {
    if n >= 1000 {
      RankBounds(n / 1000);
      var p := Power(Rank(n / 1000));
      assert Power(Rank(n)) == p * 1000 && Power(Rank(n) + 1) == p * 1000 * 1000;
    } else {
      assert Power(1) == Power(0) * 1000;
    }
  }

  lemma {:induction false} PowerGrows(a: nat, b: nat)
    requires a <= b
    ensures Power(a) <= Power(b)
  {
    if a < b {
      PowerGrows(a, b - 1);
    }
  }

  /** A 64-bit size has seven groups at most, and the divisor is at most 10 to the 18. */
  lemma AtMostSevenGroups(n: Size)
    ensures Rank(n) <= 6 && Power(Rank(n)) <= 1_000_000_000_000_000_000
  {
    RankBounds(n);
    PowerOfSix();
    if Rank(n) >= 7 {
      PowerGrows(7, Rank(n));
    }
    PowerGrows(Rank(n), 6);
  }

  lemma PowerOfSix()
    ensures Power(6) == 1_000_000_000_000_000_000 && Power(7) == 1_000_000_000_000_000_000_000
  {
  }

  // ----- What the groups are -------------------------------------------------------------------------

  /** The number that groups of three digits denote, the first being the most significant. */
  function ValueOf(groups: seq<nat>): nat {
    if groups == [] then 0
    else
      var last := |groups| - 1;
      ValueOf(groups[..last]) * 1000 + groups[last]
  }

  /** Groups of three digits without a leading group of zeros. */
  ghost predicate AreGroups(groups: seq<nat>) {
    && groups != [] && (forall k :: 0 <= k < |groups| ==> groups[k] < 1000)
    && (|groups| > 1 ==> groups[0] > 0)
  }

  /** The first group as it is, every other with a separator before it and leading zeros. */
  function GroupText(groups: seq<nat>, separator: string): string
    requires forall k :: 0 <= k < |groups| ==> groups[k] < 1000
  {
    if groups == [] then ""
    else
      var last := |groups| - 1;
      if last == 0 then PrintNat(groups[0])
      else GroupText(groups[..last], separator) + (separator + Padded(groups[last]))
  }

  lemma {:induction false} ValueNotZero(groups: seq<nat>)
    requires groups != [] && groups[0] > 0
    ensures ValueOf(groups) > 0
  {
    if |groups| > 1 {
      ValueNotZero(groups[..|groups| - 1]);
    } else {
      assert groups[..0] == [];
    }
  }

  /** Whatever the separator, a number is printed as the groups of three digits that denote
      it; there is one more of them than its rank. */
  lemma {:induction false} PrintedAsGroups(n: nat, groups: seq<nat>, separator: string)
    requires AreGroups(groups) && ValueOf(groups) == n
    ensures Separated(n, separator) == GroupText(groups, separator) && |groups| == Rank(n) + 1
  {
    hide Padded, Separated, PrintNat, ValueOf, Rank;
    var last := |groups| - 1;
    var rest := groups[..last];
    var high := ValueOf(rest);
    ValueOfMore(groups);
    SeparatedIs(n, separator);
    RankIs(n);
    if last > 0 {
      ValueNotZero(rest);
      GroupsApart(high, groups[last]);
      PrintedAsGroups(high, rest, separator);
    }
  }

  lemma ValueOfMore(groups: seq<nat>)
    requires groups != []
    ensures var last := |groups| - 1;
      ValueOf(groups) == ValueOf(groups[..last]) * 1000 + groups[last] && (last == 0 ==> ValueOf(groups) == groups[0])
  {
  }

  lemma RankIs(n: nat)
    ensures Rank(n) == if n < 1000 then 0 else Rank(n / 1000) + 1
  {
  }

  lemma GroupsApart(high: nat, low: nat)
    requires low < 1000
    ensures (high * 1000 + low) / 1000 == high && (high * 1000 + low) % 1000 == low
  {
  }

  /** Every number has such groups. */
  lemma {:induction false} HasGroups(n: nat) returns (groups: seq<nat>)
    ensures AreGroups(groups) && ValueOf(groups) == n
  {
    if n < 1000 {
      groups := [n];
      assert ValueOf(groups[..0]) == 0;
    } else {
      var rest := HasGroups(n / 1000);
      groups := rest + [n % 1000];
      assert groups[..|rest|] == rest;
      assert ValueOf(rest[..0]) == 0;
    }
  }

  lemma Short(n: nat)
    requires n < 1000
    ensures 1 <= |PrintNat(n)| <= 3
  {
    if n >= 10 {
      PrintNatEnd(n);
      if n >= 100 {
        PrintNatEnd(n / 10);
      }
    }
  }

  lemma SameEnd(a: string, b: string, s: string, t: string)
    requires |s| == |t| && a + s == b + t
    ensures a == b && s == t
  {
    assert |a| == |b|;
    assert a == (a + s)[..|a|] && b == (b + t)[..|a|];
    assert s == (a + s)[|a|..] && t == (b + t)[|a|..];
  }

  lemma SamePadded(separator: string, g: nat, h: nat)
    requires g < 1000 && h < 1000 && separator + Padded(g) == separator + Padded(h)
    ensures g == h
  {
    SameEnd(separator, separator, Padded(g), Padded(h));
    var s, t := Padded(g), Padded(h);
    SameDigit(g / 100, h / 100, s[0], t[0]);
    SameDigit(g / 10 % 10, h / 10 % 10, s[1], t[1]);
    SameDigit(g % 10, h % 10, s[2], t[2]);
    hide Digit, Padded;
    FromDigits(g);
    FromDigits(h);
  }

  lemma SameDigit(a: nat, b: nat, c: char, d: char)
    requires a < 10 && b < 10 && c == Digit(a) && d == Digit(b) && c == d
    ensures a == b
  {
  }

  lemma FromDigits(g: nat)
    requires g < 1000
    ensures g == 100 * (g / 100) + 10 * (g / 10 % 10) + g % 10
  {
  }

  /** Different numbers are printed differently, whatever the separator, even one of digits. */
  lemma {:induction false} SeparatedTellsApart(m: nat, n: nat, separator: string)
    requires Separated(m, separator) == Separated(n, separator)
    ensures m == n
  {
    SeparatedIs(m, separator);
    SeparatedIs(n, separator);
    hide Separated, Padded;
    if m < 1000 && n < 1000 {
      ReadPrintedNat(m);
      ReadPrintedNat(n);
    } else if m < 1000 {
      Short(m);
      SeparatedNotEmpty(n / 1000, separator);
      assert false;
    } else if n < 1000 {
      Short(n);
      SeparatedNotEmpty(m / 1000, separator);
      assert false;
    } else {
      SameEnd(Separated(m / 1000, separator), Separated(n / 1000, separator),
              separator + Padded(m % 1000), separator + Padded(n % 1000));
      SamePadded(separator, m % 1000, n % 1000);
      SeparatedTellsApart(m / 1000, n / 1000, separator);
    }
  }

  lemma SeparatedNotEmpty(n: nat, separator: string)
    ensures Separated(n, separator) != ""
  {
  }

  // ----- The division loop ------------------------------------------------------------------------------

  /** Dividing by `p` and by 1000 times `p`. */
  lemma SplitGroup(n: nat, p: nat)
    requires p > 0
    ensures Quotient(n, p * 1000) == Quotient(n, p) / 1000
    ensures Quotient(Remainder(n, p * 1000), p) == Quotient(n, p) % 1000
    ensures Remainder(n, p * 1000) - Quotient(n, p) % 1000 * p == Remainder(n, p)
  {
    var q, c := Quotient(n, p), Remainder(n, p);
    var a, b := q / 1000, q % 1000;
    DivMod(n, p);
    hide Quotient, Remainder;
    Recombine(a, b, c, p);
    QuotientIs(n, p * 1000, a, b * p + c);
    QuotientIs(b * p + c, p, b, c);
  }

  lemma Recombine(a: nat, b: nat, c: nat, p: nat)
    requires b < 1000 && c < p
    ensures (a * 1000 + b) * p + c == a * (p * 1000) + (b * p + c)
    ensures b * p + c < p * 1000
  {
  }

  lemma TopGroup(n: nat)
    requires n > 0
    ensures Quotient(n, Power(Rank(n))) < 1000 && Remainder(n, Power(Rank(n) + 1)) == n
  {
    hide Quotient, Remainder;
    RankBounds(n);
    var p := Power(Rank(n));
    assert Power(Rank(n) + 1) == p * 1000;
    SplitGroup(n, p);
    QuotientIs(n, p * 1000, 0, n);
  }

  /** What the loop prints for the group of rank `r`, and what is left for the next. */
  lemma NextGroup(n: nat, r: nat, separator: string)
    requires n > 0 && r <= Rank(n)
    ensures var d, n2 := Power(r), Remainder(n, Power(r + 1));
      && Quotient(n2, d) < 1000 && n2 - Quotient(n2, d) * d == Remainder(n, d)
      && (r == Rank(n) ==> Separated(Quotient(n, d), separator) == PrintNat(Quotient(n2, d)))
      && (r < Rank(n) ==>
            Separated(Quotient(n, d), separator)
              == Separated(Quotient(n, Power(r + 1)), separator) + (separator + Padded(Quotient(n2, d))))
  {
    hide Quotient, Remainder, Separated, Rank;
    var d := Power(r);
    assert Power(r + 1) == d * 1000;
    SplitGroup(n, d);
    SeparatedIs(Quotient(n, d), separator);
    if r == Rank(n) {
      TopGroup(n);
    } else {
      RankBounds(n);
      PowerGrows(r + 1, Rank(n));
      AtLeastOne(n, Power(r + 1));
    }
  }

  lemma SeparatedIs(n: nat, separator: string)
    ensures Separated(n, separator) ==
      if n < 1000 then PrintNat(n) else Separated(n / 1000, separator) + (separator + Padded(n % 1000))
  {
  }

  lemma AtLeastOne(n: nat, m: nat)
    requires 0 < m <= n
    ensures Quotient(n, m) >= 1
  {
  }

  /** Counts the groups after the first. */
  method CountGroups(n: nat) returns (rank: nat)
    ensures rank == Rank(n)
  {
    var n2 := n;
    rank := 0;
    while n2 / 1000 != 0
      invariant rank + Rank(n2) == Rank(n)
    {
      n2 := n2 / 1000;
      rank := rank + 1;
    }
  }

  method Divisor(rank: nat) returns (d: nat)
    ensures d == Power(rank)
  {
    d := 1;
    for r := 0 to rank
      invariant d == Power(r)
    {
      d := d * 1000;
    }
  }

  /** What the loop has printed before the group of rank `r`, and what it has left. */
  function Printed(n: nat, r: int, separator: string): string
    requires -1 <= r <= Rank(n)
  {
    if r == Rank(n) then "" else Separated(Quotient(n, Power(r + 1)), separator)
  }

  function Left(n: nat, r: int): nat
    requires r >= -1
  {
    Remainder(n, Power(r + 1))
  }

  /** Prints the group of rank `r`. */
  method PrintGroup(n: nat, r: nat, rank: nat, s: string, n2: nat, separator: string) returns (s': string, n2': nat)
    requires n > 0 && r <= rank == Rank(n) && s == Printed(n, r, separator) && n2 == Left(n, r)
    ensures s' == Printed(n, r - 1, separator) && n2' == Left(n, r - 1)
  {
    hide Power, Separated, Rank, Quotient, Remainder;
    var d := Divisor(r);
    NextGroup(n, r, separator);
    var group := Quotient(n2, d);
    if r == rank {
      s' := s + PrintNat(group);
      assert s' == PrintNat(group);
    } else {
      s' := s + (separator + Padded(group));
    }
    n2' := n2 - group * d;
  }

  /** Prints a size; nothing at all for 0. */
  method FormatSeparated(n: Size, separator: string) returns (s: string)
    ensures s == if n == 0 then "" else Separated(n, separator)
  {
    hide Separated, Rank, Printed, Left;
    s := "";
    if n != 0 {
      var rank := CountGroups(n);
      var n2: nat, r: int := n, rank;
      NothingPrinted(n, separator);
      while r >= 0
        invariant -1 <= r <= rank && s == Printed(n, r, separator) && n2 == Left(n, r)
      {
        s, n2 := PrintGroup(n, r, rank, s, n2, separator);
        r := r - 1;
      }
      AllPrinted(n, separator);
    }
  }

  lemma NothingPrinted(n: nat, separator: string)
    requires n > 0
    ensures Printed(n, Rank(n), separator) == "" && Left(n, Rank(n)) == n
  {
    TopGroup(n);
  }

  lemma AllPrinted(n: nat, separator: string)
    ensures Printed(n, -1, separator) == Separated(n, separator)
  {
  }

  // ----- Rounded sizes -------------------------------------------------------------------------------------

  const KILO: nat := 1024

  /** A size in a unit: the whole part and one decimal; none for bytes. */
  datatype Rounded = Rounded(unit: nat, whole: nat, tenths: nat)

  function InUnit(n: Size, unit: nat): Rounded
    requires unit > 0
  {
    Rounded(unit, n / unit, n % unit * 10 / unit)
  }

  function Round(n: Size): Rounded {
    if n < 10 * KILO then Rounded(1, n, 0)
    else if n < KILO * KILO then InUnit(n, KILO)
    else if n < KILO * KILO * KILO then InUnit(n, KILO * KILO)
    else if n < KILO * KILO * KILO * KILO then InUnit(n, KILO * KILO * KILO)
    else InUnit(n, KILO * KILO * KILO * KILO)
  }

  /** The printed value is the size cut off after the decimal, never above it, and below 1024
      in every unit but the bytes and the largest. */
  lemma RoundCutsOff(n: Size)
    ensures var r := Round(n);
      && r.unit > 0 && r.tenths < 10
      && (10 * r.whole + r.tenths) * r.unit <= 10 * n < (10 * r.whole + r.tenths + 1) * r.unit
      && (1 < r.unit < KILO * KILO * KILO * KILO ==> 1 <= r.whole < 1024)
    ensures var r := Round(n);
      && (r.unit == 1 <==> n < 10240) && (n < 10240 ==> r.whole == n && r.tenths == 0)
      && (r.unit == 1024 <==> 10240 <= n < 1048576)
      && (r.unit == 1048576 <==> 1048576 <= n < 1073741824)
      && (r.unit == 1073741824 <==> 1073741824 <= n < 1099511627776)
      && (r.unit == 1099511627776 <==> n >= 1099511627776)
  {
  }
}
