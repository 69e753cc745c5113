/** `src/PikaObj.c`: decimal text of 32-bit numbers, two digits at a time, and its reader. */
module Numbers {
  import opened Machine
  import Bytes

  predicate IsDecimal(s: string) {
    s != "" && forall i :: 0 <= i < |s| ==> '0' <= s[i] <= '9'
  }

  function Pow10(n: nat): (p: nat)
    ensures p > 0
  {
    if n == 0 then 1 else 10 * Pow10(n - 1)
  }

  function Value(c: char): int {
    c as int - '0' as int
  }

  /** The usual decimal notation. */
  function Decimal(n: nat): (s: string)
    ensures IsDecimal(s)
  {
    var last := [('0' as int + n % 10) as char];
    if n < 10 then last else Decimal(n / 10) + last
  }

  lemma DigitsSnoc(s: string, c: char)
    ensures Digits(s + [c]) == 10 * Digits(s) + Value(c)
  {
    assert (s + [c])[..|s|] == s;
  }

  /** The digits of the decimal notation have the value of the number. */
  lemma {:induction false} DecimalValue(n: nat)
    ensures Digits(Decimal(n)) == n
  {
    hide Digits;
    var last := ('0' as int + n % 10) as char;
    if n >= 10 {
      DecimalValue(n / 10);
      DigitsSnoc(Decimal(n / 10), last);
    } else {
      DigitsSnoc("", last);
      DigitsNone();
      assert "" + [last] == [last];
    }
  }

  lemma DigitsNone()
    ensures Digits("") == 0
  {
  }

  /** Every number is read from its decimal notation, with or without a sign. */
  lemma ReadsDecimal(n: nat)
    ensures Atoi(Decimal(n)) == n && Atoi("-" + Decimal(n)) == 0 - n
  {
    hide Digits, Decimal;
    DecimalValue(n);
    assert ("-" + Decimal(n))[1..] == Decimal(n);
    assert Decimal(n)[0] != '-';
  }

  lemma {:induction false} DigitsPositive(s: string)
    requires IsDecimal(s)
    ensures Digits(s) >= 0 && (s[0] != '0' ==> Digits(s) > 0)
  {
    var init := s[..|s| - 1];
    if init != "" {
      assert forall i :: 0 <= i < |init| ==> init[i] == s[i];
      DigitsPositive(init);
    }
  }

  /** A text of digits without a leading zero is the decimal notation of its value. */
  lemma {:induction false} DecimalUnique(s: string)
    requires IsDecimal(s) && (s[0] == '0' ==> s == "0")
    ensures Digits(s) >= 0 && s == Decimal(Digits(s))
  {
    var init, last := s[..|s| - 1], s[|s| - 1];
    assert s == init + [last];
    DigitsSnoc(init, last);
    DigitsPositive(s);
    if init != "" {
      assert forall i :: 0 <= i < |init| ==> init[i] == s[i];
      DigitsPositive(init);
      DecimalUnique(init);
    }
  }

  /** The first digit counts ten to the number of digits behind it. */
  lemma {:induction false} DigitsCons(c: char, t: string)
    ensures Digits([c] + t) == Value(c) * Pow10(|t|) + Digits(t)
  {
    var s := [c] + t;
    if t == "" {
      assert s[..0] == "";
    } else {
      var init := t[..|t| - 1];
      assert s[..|s| - 1] == [c] + init;
      DigitsCons(c, init);
      Scale(Value(c), Pow10(|init|), Digits(init), Value(t[|t| - 1]));
    }
  }

  lemma Scale(a: int, p: int, b: int, d: int)
    ensures (a * p + b) * 10 + d == a * (10 * p) + (b * 10 + d)
  {
  }

  // The reader

  /** Row `row` of the power table, column `digit`; the table has ten rows. */
  function TableEntry(row: nat, digit: int): int
    requires row < 10 && 0 <= digit < 10
  {
    digit * Pow10(row)
  }

  /** `fast_atoi` on at most ten digits, with or without a sign in front. */
  method FastAtoi(src: string) returns (n: int)
    requires src != "" && IsDecimal(if src[0] == '-' then src[1..] else src)
    requires |src| <= if src[0] == '-' then 11 else 10
    ensures n == Atoi(src)
  {
    hide Digits, Pow10;
    var p, row, s := |src| - 1, 0, 0;
    DigitsEnd(src);
    while p != 0
      invariant 0 <= p < |src| && row == |src| - 1 - p
      invariant s == Digits(src[p + 1..])
    {
      assert src[0] == '-' ==> src[1..][p - 1] == src[p];
      DigitsFrom(src, p);
      s := s + TableEntry(row, Value(src[p]));
      row := row + 1;
      p := p - 1;
    }
    if src[p] == '-' {
      return -s;
    }
    DigitsFrom(src, 0);
    assert src[0..] == src;
    n := s + TableEntry(row, Value(src[p]));
  }

  lemma DigitsEnd(s: string)
    ensures Digits(s[|s|..]) == 0
  {
  }

  lemma DigitsFrom(s: string, p: nat)
    requires p < |s|
    ensures Digits(s[p..]) == Value(s[p]) * Pow10(|s| - 1 - p) + Digits(s[p + 1..])
  {
    hide Digits, Pow10;
    DigitsCons(s[p], s[p + 1..]);
    assert s[p..] == [s[p]] + s[p + 1..];
  }

  // The writer

  /** The two characters of a table entry. */
  function Pair(v: nat): (r: string)
    requires v < 100
    ensures |r| == 2 && IsDecimal(r)
  {
    [('0' as int + v / 10) as char, ('0' as int + v % 10) as char]
  }

  lemma DigitsPair(v: nat, t: string)
    requires v < 100
    ensures Digits(Pair(v) + t) == v * Pow10(|t|) + Digits(t)
  {
    hide Digits, Pow10;
    var tens, ones := Pair(v)[0], Pair(v)[1];
    assert Pair(v) + t == [tens] + ([ones] + t);
    DigitsCons(tens, [ones] + t);
    DigitsCons(ones, t);
    PowStep(|t|);
    TwoDigits(v / 10, v % 10, Pow10(|t|));
  }

  lemma PowStep(n: nat)
    ensures Pow10(n + 1) == 10 * Pow10(n)
  {
  }

  lemma TwoDigits(a: int, b: int, p: int)
    ensures a * (10 * p) + b * p == (10 * a + b) * p
  {
  }

  /** Writing the last two digits of `val` in front of `t` and keeping the rest of `val` changes nothing in sum. */
  lemma MoveUp(val: nat, t: string)
    ensures Digits(Pair(val % 100) + t) + (val / 100) * Pow10(|t| + 2) == Digits(t) + val * Pow10(|t|)
  {
    hide Digits, Pow10, Pair;
    DigitsPair(val % 100, t);
    PowStep(|t|);
    PowStep(|t| + 1);
    Regroup(val / 100, val % 100, Pow10(|t|));
  }

  lemma Regroup(q: int, r: int, p: int)
    ensures (100 * q + r) * p == q * (100 * p) + r * p
  {
  }

  /** The largest value still to be written when the text starts at `p`. */
  function Left(p: nat): nat {
    if p == 10 then 4294967295 else if p == 8 then 42949672 else if p == 6 then 429496 else if p == 4 then 4294 else 42
  }

  /** Copies a table entry to the two bytes from `p` on. */
  method PutPair(buf: array<char>, p: nat, v: nat)
    requires p <= 8 && buf.Length >= 11 && v < 100
    modifies buf
    ensures buf[p..10] == Pair(v) + old(buf[p + 2..10])
    ensures forall i :: 10 <= i < buf.Length ==> buf[i] == old(buf[i])
  {
    buf[p], buf[p + 1] := Pair(v)[0], Pair(v)[1];
  }

  /**
   * `fast_itoa` into a buffer of 11 bytes. The result starts at `start`, ends before the NUL in the last byte, is the
   * decimal notation of the number, and `FastAtoi` reads the number back from it.
   */
  method FastItoa(buf: array<char>, number: nat) returns (start: nat)
    requires buf.Length >= 11 && number < Bytes.U32
    modifies buf
    ensures start < 10 && buf[10] == '\0'
    ensures forall i :: 11 <= i < buf.Length ==> buf[i] == old(buf[i])
    ensures var text := buf[start..10];
      text == Decimal(number) && Atoi(text) == number
  {
    hide Digits, Pow10, Pair, Atoi, Decimal;
    var p, val := 10, number;
    buf[p] := '\0';
    NothingWritten(buf[10..10], number);
    while val >= 100
      invariant p in {10, 8, 6, 4, 2} && val <= Left(p) && buf[10] == '\0'
      invariant p < 10 ==> IsDecimal(buf[p..10]) && val > 0
      invariant Digits(buf[p..10]) + val * Pow10(10 - p) == number
      invariant p == 10 ==> val == number
      invariant forall i :: 11 <= i < buf.Length ==> buf[i] == old(buf[i])
    {
      MoveUp(val, buf[p..10]);
      p := p - 2;
      PutPair(buf, p, val % 100);
      val := val / 100;
    }
    ghost var rest := buf[p..10];
    p := p - 2;
    PutPair(buf, p, val);
    LastPair(val, rest, number);
    start := if val < 10 then p + 1 else p;
    assert buf[p..10][1..] == buf[p + 1..10];
  }

  /** With the last pair in front, and its zero left out, the text is complete. */
  lemma LastPair(val: nat, rest: string, number: nat)
    requires val < 100 && (rest == "" || (IsDecimal(rest) && val > 0)) && Digits(rest) + val * Pow10(|rest|) == number
    ensures var text := Pair(val) + rest; var s := if val < 10 then text[1..] else text;
      s == Decimal(number) && Atoi(s) == number
  {
    hide Digits, Pow10, Pair, Atoi, Decimal;
    DigitsPair(val, rest);
    LeadingZero(val, rest);
    var text := Pair(val) + rest;
    IsNotation(if val < 10 then text[1..] else text, number);
  }

  lemma IsNotation(s: string, n: nat)
    requires IsDecimal(s) && Atoi(s) == n && (s[0] == '0' ==> s == "0")
    ensures s == Decimal(n)
  {
    hide Decimal;
    DecimalUnique(s);
  }

  lemma NothingWritten(t: string, number: nat)
    requires t == ""
    ensures Digits(t) + number * Pow10(0) == number
  {
  }

  /** A zero in front may be left out. */
  lemma LeadingZero(val: nat, rest: string)
    requires val < 100 && (rest == "" || IsDecimal(rest))
    ensures var text := Pair(val) + rest; var s := if val < 10 then text[1..] else text;
      && IsDecimal(s) && Atoi(s) == Digits(text)
      && (s[0] == '0' ==> val == 0) && (val < 10 ==> s[0] == ('0' as int + val) as char && s[1..] == rest)
  {
    hide Digits, Pow10;
    var text := Pair(val) + rest;
    if val < 10 {
      DigitsCons(text[0], text[1..]);
      assert text == [text[0]] + text[1..];
      assert text[1..][0] == Pair(val)[1] && text[1..][1..] == rest;
    }
  }

  /** What is written is read back. */
  method WriteAndRead(number: nat) returns (n: int)
    requires number < Bytes.U32
    ensures n == number
  {
    var buf := new char[11];
    var start := FastItoa(buf, number);
    n := FastAtoi(buf[start..10]);
  }
}
