/** Decimal numbers: what `flatten_properties` writes as an ordinal and what the CPU-list parsers
    read, against each other. */
module Decimal {
  import opened Wrappers
  import opened Strings
  import Flatten
  import CpuList

  /** Reading the decimal text of a number gives the number back. */
  lemma {:induction false} ReadWritten(n: nat)
    ensures CpuList.AllDigits(Flatten.Digits(n)) && CpuList.Digits(Flatten.Digits(n)) == n
  {
    var s := Flatten.Digits(n);
    if n >= 10 {
      ReadWritten(n / 10);
      assert s[..|s| - 1] == Flatten.Digits(n / 10);
    } else {
      assert s[..0] == "";
    }
  }

  function Zeros(z: nat): (s: string)
    ensures |s| == z && forall i :: 0 <= i < z ==> s[i] == '0'
  {
    seq(z, _ => '0')
  }

  /** A digit text is the decimal text of its number after some zeros. */
  lemma {:induction false} WrittenRead(s: string) returns (z: nat)
    requires s != "" && CpuList.AllDigits(s)
    ensures s == Zeros(z) + Flatten.Digits(CpuList.Digits(s))
  {
    var rest, last := s[..|s| - 1], s[|s| - 1];
    assert CpuList.AllDigits(rest) && CpuList.IsDigit(last);
    if rest == "" {
      OneDigit(last);
      z := 0;
    } else {
      var y := WrittenRead(rest);
      z := LastDigit(rest, last, y, CpuList.Digits(rest));
    }
  }

  lemma OneDigit(last: char)
    requires CpuList.IsDigit(last)
    ensures Flatten.Digits((last - '0') as int) == [last]
  {
    assert Flatten.Digit((last - '0') as int) == last;
  }

  lemma LastDigit(rest: string, last: char, y: nat, n: nat) returns (z: nat)
    requires CpuList.IsDigit(last) && rest == Zeros(y) + Flatten.Digits(n)
    ensures rest + [last] == Zeros(z) + Flatten.Digits(n * 10 + (last - '0') as int)
  {
    var d := (last - '0') as int;
    OneDigit(last);
    OneMoreDigit(n, d);
    if n == 0 {
      z := y + 1;
      assert Flatten.Digits(0) == "0";
      assert Zeros(z) == Zeros(y) + "0";
    } else {
      z := y;
    }
  }

  lemma OneMoreDigit(n: nat, d: nat)
    requires d < 10
    ensures Flatten.Digits(n * 10 + d) == if n == 0 then Flatten.Digits(d) else Flatten.Digits(n) + Flatten.Digits(d)
  {
  }

  lemma {:induction false} ZerosCountNothing(z: nat, s: string)
    requires CpuList.AllDigits(s)
    ensures CpuList.AllDigits(Zeros(z) + s) && CpuList.Digits(Zeros(z) + s) == CpuList.Digits(s)
    decreases |s|, z
  {
    var t := Zeros(z) + s;
    if s != "" {
      assert t[..|t| - 1] == Zeros(z) + s[..|s| - 1];
      ZerosCountNothing(z, s[..|s| - 1]);
    } else if z > 0 {
      assert t[..|t| - 1] == Zeros(z - 1) + "";
      ZerosCountNothing(z - 1, "");
    }
  }

  /** The text of a number that fits into 32 bits: perhaps a plus sign, perhaps zeros, and its
      decimal digits. */
  ghost predicate IsNumber(text: string, n: nat) {
    n <= 0xFFFF_FFFF
    && exists z: nat :: text == Zeros(z) + Flatten.Digits(n) || text == "+" + (Zeros(z) + Flatten.Digits(n))
  }

  lemma NumberReads(digits: string, n: nat, z: nat)
    requires digits == Zeros(z) + Flatten.Digits(n) && n <= 0xFFFF_FFFF
    ensures CpuList.ParseU32(digits) == Some(n) && CpuList.ParseU32("+" + digits) == Some(n)
  {
    ReadWritten(n);
    ZerosCountNothing(z, Flatten.Digits(n));
    assert digits != "" && CpuList.IsDigit(digits[0]);
    assert ("+" + digits)[1..] == digits;
  }

  /** `parse::<u32>` reads exactly these texts. */
  lemma NumberExactly(text: string, n: nat)
    ensures CpuList.ParseU32(text) == Some(n) <==> IsNumber(text, n)
  {
    if CpuList.ParseU32(text) == Some(n) {
      var digits := if text[0] == '+' then text[1..] else text;
      var z := WrittenRead(digits);
      if text[0] == '+' { assert text == "+" + (Zeros(z) + Flatten.Digits(n)); }
    }
    if IsNumber(text, n) {
      var z: nat :| text == Zeros(z) + Flatten.Digits(n) || text == "+" + (Zeros(z) + Flatten.Digits(n));
      NumberReads(Zeros(z) + Flatten.Digits(n), n, z);
    }
  }

  // ----- one part of a CPU list -----

  lemma {:induction false} OnceAt(x: string, y: string)
    requires '-' !in x
    ensures SplitOnce(x + "-" + y, '-') == Some((x, y))
  {
    var s := x + "-" + y;
    if x != "" {
      assert s[1..] == x[1..] + "-" + y;
      OnceAt(x[1..], y);
      assert [x[0]] + x[1..] == x;
    } else {
      assert s[1..] == y;
    }
  }

  lemma {:induction false} OnceNowhere(s: string)
    requires '-' !in s
    ensures SplitOnce(s, '-').None?
  {
    if s != "" { OnceNowhere(s[1..]); }
  }

  lemma {:induction false} FirstDash(s: string) returns (x: string, y: string)
    requires '-' in s
    ensures s == x + "-" + y && '-' !in x
  {
    if s[0] == '-' {
      x, y := "", s[1..];
    } else {
      assert s == [s[0]] + s[1..];
      x, y := FirstDash(s[1..]);
      assert s == ([s[0]] + x) + "-" + y;
      x := [s[0]] + x;
    }
  }

  /** A range: two numbers around the first dash, with blanks around them. */
  ghost predicate IsRange(part: string, a: nat, b: nat) {
    exists x: string, y: string :: part == x + "-" + y && '-' !in x && IsNumber(Trim(x), a) && IsNumber(Trim(y), b)
  }

  lemma DigitsHaveNoDash(text: string, n: nat)
    requires IsNumber(text, n)
    ensures '-' !in text && text != ""
  {
    ReadWritten(n);
  }

  /** A part stands for a range exactly if it is one number or two of them in order around a
      dash, and for no index exactly if it is empty. */
  lemma PartExactly(part: string, a: nat, b: nat)
    ensures CpuList.ReadPart(part) == CpuList.Span(a, b) <==> (a == b && IsNumber(part, a)) || (a <= b && IsRange(part, a, b))
    ensures CpuList.ReadPart(part).Blank? <==> part == ""
  {
    if '-' in part {
      var x, y := FirstDash(part);
      RangePart(part, x, y, a, b);
    } else {
      OnceNowhere(part);
      NumberExactly(part, a);
      if IsNumber(part, a) { DigitsHaveNoDash(part, a); }
    }
  }

  lemma RangePart(part: string, x: string, y: string, a: nat, b: nat)
    requires part == x + "-" + y && '-' !in x
    ensures CpuList.ReadPart(part) == CpuList.Span(a, b) <==> (a == b && IsNumber(part, a)) || (a <= b && IsRange(part, a, b))
    ensures !CpuList.ReadPart(part).Blank? && part != ""
  {
    OnceAt(x, y);
    NumberExactly(Trim(x), a);
    NumberExactly(Trim(y), b);
    assert part[|x|] == '-';
    if IsNumber(part, a) { DigitsHaveNoDash(part, a); }
    if IsRange(part, a, b) {
      var x', y' :| part == x' + "-" + y' && '-' !in x' && IsNumber(Trim(x'), a) && IsNumber(Trim(y'), b);
      OnceAt(x', y');
    }
  }
}
