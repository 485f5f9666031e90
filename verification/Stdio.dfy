/** Number printing in the user C library: digits are collected backwards in a 32-byte buffer and then written out. */
module Stdio {
  const INT_MIN: int := -0x8000_0000
  const CELLS: nat := 32
  const HEX := "0123456789abcdef"

  // ---- Numerals in base 10 and base 16

  function Base(hex: bool): nat { if hex then 16 else 10 }

  function Units(x: nat, hex: bool): (d: nat)
    ensures d < Base(hex)
  {
    if hex then x % 16 else x % 10
  }

  function Rest(x: nat, hex: bool): nat { if hex then x / 16 else x / 10 }

  function Joined(v: nat, d: nat, hex: bool): nat { if hex then v * 16 + d else v * 10 + d }

  lemma JoinSplit(v: nat, d: nat, hex: bool)
    requires d < Base(hex)
    ensures Rest(Joined(v, d, hex), hex) == v && Units(Joined(v, d, hex), hex) == d
  {
  }

  lemma SplitJoin(x: nat, hex: bool)
    ensures Joined(Rest(x, hex), Units(x, hex), hex) == x
    ensures x < Base(hex) ==> Rest(x, hex) == 0
    ensures x >= Base(hex) ==> 0 < Rest(x, hex) < x
    ensures x > 0 ==> Rest(x, hex) < x
  {
  }

  function Digit(d: nat): char
    requires d < 16
  {
    if d < 10 then '0' + d as char else 'a' + (d - 10) as char
  }

  predicate IsDigit(c: char, hex: bool) { '0' <= c <= '9' || (hex && 'a' <= c <= 'f') }

  function DigitValue(c: char, hex: bool): (d: nat)
    requires IsDigit(c, hex)
    ensures d < Base(hex) && Digit(d) == c
  {
    if c <= '9' then (c - '0') as int else (c - 'a') as int + 10
  }

  lemma DigitRoundTrip(d: nat, hex: bool)
    requires d < Base(hex)
    ensures IsDigit(Digit(d), hex) && DigitValue(Digit(d), hex) == d && (Digit(d) == '0' <==> d == 0)
  {
  }

  predicate Digits(s: string, hex: bool) { forall k :: 0 <= k < |s| ==> IsDigit(s[k], hex) }

  /** A numeral has a digit, has only digits, and does not begin with zero unless it is one digit. */
  predicate IsNumeral(s: string, hex: bool) { s != "" && (|s| > 1 ==> s[0] != '0') && Digits(s, hex) }

  /** Reading a numeral, most significant digit first. */
  function Value(s: string, hex: bool): nat
    requires Digits(s, hex)
  {
    if s == "" then 0 else Joined(Value(s[..|s| - 1], hex), DigitValue(s[|s| - 1], hex), hex)
  }

  /** The numeral of a number. */
  function Text(x: nat, hex: bool): (s: string)
    ensures s != ""
  {
    if x < Base(hex) then [Digit(x)] else Text(Rest(x, hex), hex) + [Digit(Units(x, hex))]
  }

  /** Every number has a numeral, and it reads back as that number. */
  lemma {:induction false} TextReadsBack(x: nat, hex: bool)
    ensures IsNumeral(Text(x, hex), hex) && Value(Text(x, hex), hex) == x
    ensures x > 0 ==> Text(x, hex)[0] != '0'
  {
    hide Rest, Units, Joined, Digit, DigitValue, IsDigit;
    SplitJoin(x, hex);
    DigitRoundTrip(Units(x, hex), hex);
    var s := Text(x, hex);
    if x >= Base(hex) {
      TextReadsBack(Rest(x, hex), hex);
      assert s[..|s| - 1] == Text(Rest(x, hex), hex);
    } else {
      DigitRoundTrip(x, hex);
      assert Value(s[..0], hex) == 0;
      assert Value(s, hex) == Joined(0, x, hex) == x by { JoinZero(x, hex); }
    }
  }

  lemma JoinZero(d: nat, hex: bool)
    ensures Joined(0, d, hex) == d
  {
  }

  /** A number has only one numeral. */
  lemma {:induction false} NumeralIsUnique(s: string, hex: bool)
    requires IsNumeral(s, hex)
    ensures Text(Value(s, hex), hex) == s
    ensures s[0] != '0' ==> Value(s, hex) > 0
  {
    hide Rest, Units, Joined, IsDigit;
    var more, d := s[..|s| - 1], DigitValue(s[|s| - 1], hex);
    assert s == more + [s[|s| - 1]];
    if more == "" {
      JoinZero(d, hex);
    } else {
      NumeralIsUnique(more, hex);
      var v := Value(more, hex);
      JoinSplit(v, d, hex);
      SplitJoin(Joined(v, d, hex), hex);
    }
  }

  /** The least number with more than `n` digits. */
  function Limit(n: nat, hex: bool): nat { if n == 0 then 1 else Joined(Limit(n - 1, hex), 0, hex) }

  lemma {:induction false} TextWidth(x: nat, hex: bool, n: nat)
    requires n > 0 && x < Limit(n, hex)
    ensures |Text(x, hex)| <= n
  {
    if x >= Base(hex) {
      TextWidth(Rest(x, hex), hex, n - 1);
    }
  }

  lemma Limits()
    ensures Limit(10, false) == 100_0000_0000 && Limit(8, true) == 0x1_0000_0000
  {
    assert Limit(5, false) == 10_0000;
    assert Limit(4, true) == 0x1_0000;
  }

  // ---- Printing

  function Reversed(s: string): (r: string)
    ensures |r| == |s|
  {
    if s == "" then "" else [s[|s| - 1]] + Reversed(s[..|s| - 1])
  }

  lemma ReversedSnoc(s: string, c: char)
    ensures Reversed(s + [c]) == [c] + Reversed(s)
  {
    assert (s + [c])[..|s|] == s;
  }

  /** The text left to collect: what is already in the buffer is the tail of the numeral. */
  ghost predicate Collected(x0: nat, x: nat, s: string, hex: bool)
  {
    if x == 0 then Reversed(s) == Text(x0, hex) else Text(x, hex) + Reversed(s) == Text(x0, hex)
  }

  lemma CollectOne(x0: nat, x: nat, s: string, hex: bool)
    requires x > 0 && Collected(x0, x, s, hex)
    ensures Collected(x0, Rest(x, hex), s + [Digit(Units(x, hex))], hex)
    ensures |s| < |Text(x0, hex)|
  {
    hide Rest, Digit;
    var c := Digit(Units(x, hex));
    SplitJoin(x, hex);
    ReversedSnoc(s, c);
    if x >= Base(hex) {
      assert (Text(Rest(x, hex), hex) + [c]) + Reversed(s) == Text(Rest(x, hex), hex) + ([c] + Reversed(s));
    }
  }

  /** Writes the cells of the buffer one at a time, last cell first. */
  method Emit(buf: array<char>, cells: nat) returns (out: string)
    requires cells <= buf.Length
    ensures out == Reversed(buf[..cells])
  {
    out := "";
    var n := cells;
    while n > 0
      invariant 0 <= n <= cells
      invariant out + Reversed(buf[..n]) == Reversed(buf[..cells])
    {
      n := n - 1;
      assert buf[..n + 1][..n] == buf[..n];
      out := out + [buf[n]];
    }
  }

  /** Two's complement: the least int is its own negation. */
  function Negated(i: int): int { if i == INT_MIN then INT_MIN else -i }

  lemma ZeroNumeral()
    ensures IsNumeral("0", false) && Value("0", false) == 0
  {
    TextReadsBack(0, false);
  }

  /** The digit loop: the decimal digits of a positive int, last digit first; none for any other int. */
  method CollectDecimal(i: int, buf: array<char>) returns (n: nat)
    requires i <= 0x7fff_ffff && buf.Length == CELLS
    modifies buf
    ensures n <= 10 && n == (if i <= 0 then 0 else |Text(i, false)|)
    ensures i > 0 ==> Reversed(buf[..n]) == Text(i, false)
  {
    n := 0;
    if i <= 0 {
      return;
    }
    var x := i;
    Limits();
    TextWidth(i, false, 10);
    while x > 0
      invariant n <= 10 && x >= 0 && Collected(i, x, buf[..n], false)
    {
      CollectOne(i, x, buf[..n], false);
      buf[n] := '0' + (x % 10) as char;
      n := n + 1;
      x := x / 10;
      assert buf[..n] == buf[..n - 1] + [buf[n - 1]];
    }
  }

  /**
   Decimal: what is printed reads back as the number, with no leading zero and at most 10 digits, exactly for
   every int but the least, which negates to itself and prints as a lone sign.
   */
  method PrintInt(i: int) returns (out: string)
    requires -0x8000_0000 <= i <= 0x7fff_ffff
    ensures i >= 0 ==> IsNumeral(out, false) && Value(out, false) == i && |out| <= 10
    ensures -0x8000_0000 < i < 0 ==> out != "" && out[0] == '-' && IsNumeral(out[1..], false) && Value(out[1..], false) == -i && |out| <= 11
    ensures i == -0x8000_0000 ==> out == "-"
  {
    hide IsNumeral, Value, Text, Reversed;
    if i == 0 {
      ZeroNumeral();
      return "0";
    }
    var x := if i < 0 then Negated(i) else i;
    var buf := new char[CELLS];
    var n := CollectDecimal(x, buf);
    if x > 0 {
      TextReadsBack(x, false);
    }
    out := Emit(buf, n);
    if i < 0 {
      out := "-" + out;
      assert out[1..] == out[1..][..n];
    }
  }

  /** Hexadecimal: what is printed reads back as the word, with no leading zero and at most 8 digits. */
  method PrintHex(u: nat) returns (out: string)
    requires u < 0x1_0000_0000
    ensures IsNumeral(out, true) && Value(out, true) == u && |out| <= 8
  {
    if u == 0 {
      return "0";
    }
    var x := u;
    var buf := new char[CELLS];
    var n := 0;
    TextReadsBack(u, true);
    Limits();
    TextWidth(u, true, 8);
    while x > 0
      invariant n <= 8 && Collected(u, x, buf[..n], true)
    {
      CollectOne(u, x, buf[..n], true);
      HexDigits(x % 16);
      buf[n] := HEX[x % 16];
      n := n + 1;
      x := x / 16;
      assert buf[..n] == buf[..n - 1] + [buf[n - 1]];
    }
    out := Emit(buf, n);
  }

  lemma HexDigits(d: nat)
    requires d < 16
    ensures HEX[d] == Digit(d) == "0123456789abcdef"[d]
  {
  }
}
