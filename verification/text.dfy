/** Strings as the C library handles them: words, case-blind comparison, decimal
    numbers and buffers of limited size. */
module Text {
  import opened Sequences

  // ----- Characters ----------------------------------------------------------------

  predicate IsSpace(c: char) {
    c == ' ' || c == '\t' || c == '\n' || c == '\r' || c == '\U{0B}' || c == '\U{0C}'
  }

  function Lower(c: char): char {
    if 'A' <= c <= 'Z' then ((c as int) + 32) as char else c
  }

  function Fold(s: string): (t: string)
    ensures |t| == |s|
  {
    seq(|s|, i requires 0 <= i < |s| => Lower(s[i]))
  }

  /** Case-blind equality. */
  predicate SameWord(a: string, b: string) {
    Fold(a) == Fold(b)
  }

  // ----- Words ---------------------------------------------------------------------

  function WordEnd(s: string): (n: nat)
    ensures n <= |s|
    ensures forall i :: 0 <= i < n ==> !IsSpace(s[i])
    ensures n < |s| ==> IsSpace(s[n])
  {
    if s == "" || IsSpace(s[0]) then 0 else 1 + WordEnd(s[1..])
  }

  /** The words of a line: its maximal runs of characters that are not white space. */
  function Words(s: string): seq<string>
    decreases |s|
  {
    if s == "" then []
    else if IsSpace(s[0]) then Words(s[1..])
    else [s[..WordEnd(s)]] + Words(s[WordEnd(s)..])
  }

  predicate IsWord(w: string) {
    w != "" && forall i :: 0 <= i < |w| ==> !IsSpace(w[i])
  }

  predicate AreWords(ws: seq<string>) {
    forall i :: 0 <= i < |ws| ==> IsWord(ws[i])
  }

  /** The words joined by single spaces. */
  function Join(ws: seq<string>): string {
    if ws == [] then ""
    else if |ws| == 1 then ws[0]
    else ws[0] + " " + Join(ws[1..])
  }

  lemma {:induction false} WordEndAt(w: string, rest: string)
    requires forall i :: 0 <= i < |w| ==> !IsSpace(w[i])
    requires rest == "" || IsSpace(rest[0])
    ensures WordEnd(w + rest) == |w|
  {
    if w == "" {
      assert w + rest == rest;
    } else {
      assert (w + rest)[1..] == w[1..] + rest;
      WordEndAt(w[1..], rest);
    }
  }

  lemma WordFirst(w: string, rest: string)
    requires IsWord(w)
    requires rest == "" || IsSpace(rest[0])
    ensures Words(w + rest) == [w] + Words(rest)
  {
    WordEndAt(w, rest);
    Cut(w, rest);
  }

  lemma SpaceFirst(c: char, rest: string)
    requires IsSpace(c)
    ensures Words([c] + rest) == Words(rest)
  {
  }

  /** Splitting undoes joining. */
  lemma {:induction false} WordsOfJoin(ws: seq<string>)
    requires AreWords(ws)
    ensures Words(Join(ws)) == ws
  {
    if |ws| == 1 {
      WordFirst(ws[0], "");
      assert ws[0] + "" == ws[0];
    } else if |ws| > 1 {
      var rest := Join(ws[1..]);
      WordsOfJoin(ws[1..]);
      SpaceFirst(' ', rest);
      Assoc(ws[0], " ", rest);
      WordFirst(ws[0], " " + rest);
    }
  }

  lemma {:induction false} WordsAreWords(s: string)
    ensures AreWords(Words(s))
    decreases |s|
  {
    if s == "" {
    } else if IsSpace(s[0]) {
      WordsAreWords(s[1..]);
    } else {
      WordsAreWords(s[WordEnd(s)..]);
    }
  }

  /** A keyword and its arguments come back from a printed line. */
  lemma WordsOfLine(keyword: string, ws: seq<string>)
    requires IsWord(keyword) && AreWords(ws)
    ensures Words(keyword + " " + Join(ws)) == [keyword] + ws
  {
    Assoc(keyword, " ", Join(ws));
    WordFirst(keyword, " " + Join(ws));
    SpaceFirst(' ', Join(ws));
    WordsOfJoin(ws);
  }

  lemma WordAlone(keyword: string)
    requires IsWord(keyword)
    ensures Words(keyword) == [keyword]
  {
    WordFirst(keyword, "");
    assert keyword + "" == keyword;
  }

  // ----- Lines ---------------------------------------------------------------------

  predicate NoNewline(s: string) {
    '\n' !in s
  }

  lemma {:induction false} JoinHasNoNewline(ws: seq<string>)
    requires AreWords(ws)
    ensures NoNewline(Join(ws))
  {
    if ws != [] {
      assert forall i :: 0 <= i < |ws[0]| ==> ws[0][i] != '\n';
      JoinHasNoNewline(ws[1..]);
    }
  }

  // ----- Buffers -------------------------------------------------------------------

  /** What a formatted print into a buffer of `size` bytes leaves there. */
  function Truncated(s: string, size: nat): string
    requires size > 0
  {
    if |s| < size then s else s[..size - 1]
  }

  // ----- Decimal numbers -------------------------------------------------------------

  type Long = n: int | -0x8000_0000 <= n < 0x8000_0000

  function Digit(d: nat): char
    requires d < 10
  {
    "0123456789"[d]
  }

  function PrintNat(n: nat): (s: string)
    ensures s != ""
  {
    if n < 10 then [Digit(n)] else PrintNat(n / 10) + [Digit(n % 10)]
  }

  function PrintLong(n: int): string {
    if n < 0 then "-" + PrintNat(-n) else PrintNat(n)
  }

  /** The value of a digit in bases up to sixteen. */
  function DigitValue(c: char): nat {
    var v := c as int;
    if 48 <= v <= 57 then v - 48
    else if 65 <= v <= 70 then v - 55
    else if 97 <= v <= 102 then v - 87
    else 16
  }

  /** The digits of `base` that `s` starts with, added on to `acc`. */
  function ReadDigits(s: string, base: nat, acc: int): int {
    if s == "" || DigitValue(s[0]) >= base then acc
    else ReadDigits(s[1..], base, acc * base + DigitValue(s[0]))
  }

  function ReadUnsigned(s: string): int {
    if |s| >= 3 && s[0] == '0' && Lower(s[1]) == 'x' && DigitValue(s[2]) < 16 then ReadDigits(s[2..], 16, 0)
    else if |s| >= 1 && s[0] == '0' then ReadDigits(s, 8, 0)
    else ReadDigits(s, 10, 0)
  }

  function Clamp(n: int): Long {
    if n < -0x8000_0000 then -0x8000_0000 else if n > 0x7fff_ffff then 0x7fff_ffff else n
  }

  /** `strtol` with base 0: white space, a sign, then a hexadecimal, octal or decimal number. */
  function ReadLong(s: string): Long
    decreases |s|
  {
    if s == "" then 0
    else if IsSpace(s[0]) then ReadLong(s[1..])
    else if s[0] == '-' then Clamp(-ReadUnsigned(s[1..]))
    else if s[0] == '+' then Clamp(ReadUnsigned(s[1..]))
    else Clamp(ReadUnsigned(s))
  }

  ghost predicate AllDigits(s: string) {
    forall i :: 0 <= i < |s| ==> '0' <= s[i] <= '9'
  }

  lemma {:induction false} PrintNatDigits(n: nat)
    ensures AllDigits(PrintNat(n))
    ensures n > 0 ==> PrintNat(n)[0] != '0'
  {
    if n >= 10 {
      PrintNatDigits(n / 10);
    }
  }

  lemma {:induction false} ReadDigitsSnoc(s: string, c: char, acc: int)
    requires AllDigits(s) && '0' <= c <= '9'
    ensures ReadDigits(s + [c], 10, acc) == ReadDigits(s, 10, acc) * 10 + DigitValue(c)
  {
    if s == "" {
      assert s + [c] == [c];
      assert [c][1..] == "";
    } else {
      assert (s + [c])[1..] == s[1..] + [c];
      ReadDigitsSnoc(s[1..], c, acc * 10 + DigitValue(s[0]));
    }
  }

  lemma {:induction false} ReadPrintedNat(n: nat)
    ensures ReadDigits(PrintNat(n), 10, 0) == n
  {
    if n < 10 {
      assert PrintNat(n)[1..] == "";
    } else {
      ReadPrintedNat(n / 10);
      PrintNatDigits(n / 10);
      ReadDigitsSnoc(PrintNat(n / 10), Digit(n % 10), 0);
    }
  }

  /** Reading a printed number gives it back; no printed number looks octal. */
  lemma ReadPrintedLong(n: Long)
    requires n != 0
    ensures ReadLong(PrintLong(n)) == n
    ensures IsWord(PrintLong(n))
  {
    var i: int := n;
    var m: nat := if i < 0 then -i else i;
    PrintNatDigits(m);
    ReadPrintedNat(m);
    if n < 0 {
      assert PrintLong(n)[1..] == PrintNat(m);
    }
  }

  // ----- Numbers in other bases -------------------------------------------------------

  function HexDigit(d: nat): char
    requires d < 16
  {
    "0123456789abcdef"[d]
  }

  /** The digits of a number in a base up to sixteen. */
  function PrintIn(n: nat, base: nat): (s: string)
    requires 2 <= base <= 16
    ensures s != ""
  {
    if n < base then [HexDigit(n)] else PrintIn(n / base, base) + [HexDigit(n % base)]
  }

  ghost predicate AllBelow(s: string, base: nat) {
    forall i :: 0 <= i < |s| ==> DigitValue(s[i]) < base
  }

  lemma HexDigitValue(d: nat)
    requires d < 16
    ensures DigitValue(HexDigit(d)) == d
  {
  }

  lemma {:induction false} PrintInBelow(n: nat, base: nat)
    requires 2 <= base <= 16
    ensures AllBelow(PrintIn(n, base), base)
  {
    hide DigitValue, HexDigit;
    if n >= base {
      PrintInBelow(n / base, base);
      HexDigitValue(n % base);
      BelowSnoc(PrintIn(n / base, base), HexDigit(n % base), base);
    } else {
      HexDigitValue(n);
    }
  }

  lemma BelowSnoc(s: string, c: char, base: nat)
    requires AllBelow(s, base) && DigitValue(c) < base
    ensures AllBelow(s + [c], base)
  {
    hide DigitValue;
  }

  lemma {:induction false} ReadSnoc(s: string, c: char, base: nat, acc: int)
    requires AllBelow(s, base) && DigitValue(c) < base
    ensures ReadDigits(s + [c], base, acc) == ReadDigits(s, base, acc) * base + DigitValue(c)
  {
    hide DigitValue;
    if s == "" {
      assert s + [c] == [c];
      assert [c][1..] == "";
    } else {
      assert (s + [c])[1..] == s[1..] + [c];
      ReadSnoc(s[1..], c, base, acc * base + DigitValue(s[0]));
    }
  }

  lemma {:induction false} ReadPrintedIn(n: nat, base: nat)
    requires 2 <= base <= 16
    ensures ReadDigits(PrintIn(n, base), base, 0) == n
  {
    if n < base {
      HexDigitValue(n);
      assert PrintIn(n, base)[1..] == "";
    } else {
      hide DigitValue, HexDigit;
      ReadPrintedIn(n / base, base);
      PrintInBelow(n / base, base);
      HexDigitValue(n % base);
      ReadSnoc(PrintIn(n / base, base), HexDigit(n % base), base, 0);
      Digits(n, base);
    }
  }

  lemma Digits(n: nat, base: nat)
    requires base > 0
    ensures n / base * base + n % base == n
  {
  }

  /** A number in hexadecimal after `0x`, or in octal after `0`, is read in that base. */
  lemma ReadOtherBases(n: nat)
    requires n < 0x8000_0000
    ensures ReadLong("0x" + PrintIn(n, 16)) == n
    ensures ReadLong("0" + PrintIn(n, 8)) == n
  {
    var hex, octal := PrintIn(n, 16), PrintIn(n, 8);
    ReadPrintedIn(n, 16);
    ReadPrintedIn(n, 8);
    PrintInBelow(n, 16);
    PrintInBelow(n, 8);
    hide PrintIn, ReadDigits;
    assert ("0x" + hex)[2..] == hex && ("0x" + hex)[2] == hex[0];
    OctalZero(octal);
    assert ("0" + octal)[1..] == octal;
    assert DigitValue(octal[0]) < 8;
    assert Lower(octal[0]) != 'x';
  }

  lemma OctalZero(s: string)
    ensures ReadDigits("0" + s, 8, 0) == ReadDigits(s, 8, 0)
  {
    assert ("0" + s)[1..] == s;
  }
}
