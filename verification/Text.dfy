/** The text forms numbers take in the database: decimal integers, trimming, splitting and joining. */
module Text {
  import opened Common

  function DigitChar(d: int): char
    requires 0 <= d < 10
  {
    '0' + d as char
  }

  predicate IsDigit(c: char) { '0' <= c <= '9' }

  function DigitValue(c: char): int
    requires IsDigit(c)
  {
    c as int - '0' as int
  }

  function Digits(n: nat): (s: string)
    ensures |s| >= 1 && forall i :: 0 <= i < |s| ==> IsDigit(s[i])
  {
    if n < 10 then [DigitChar(n)] else Digits(n / 10) + [DigitChar(n % 10)]
  }

  function Itoa(n: int): string { if n < 0 then "-" + Digits(-n) else Digits(n) }

  /** Two digits at least, as "%02d" prints a number that is not negative. */
  function Pad2(n: nat): string { if n < 10 then "0" + Digits(n) else Digits(n) }

  function Natural(s: string): Option<nat> {
    if s == [] then Some(0)
    else
      var last := s[|s| - 1];
      var front := Natural(s[..|s| - 1]);
      if front.None? || !IsDigit(last) then None else Some(10 * front.value + DigitValue(last))
  }

  /** A decimal integer with an optional sign, within the range of its width. */
  function ParseInt(s: string, low: int, high: int): Option<int> {
    var signed := s != [] && (s[0] == '-' || s[0] == '+');
    var digits := if signed then s[1..] else s;
    var n := Natural(digits);
    if digits == [] || n.None? then None
    else
      var value: int := if signed && s[0] == '-' then 0 - n.value else n.value;
      if low <= value <= high then Some(value) else None
  }

  lemma {:induction false} NaturalOfDigits(n: nat)
    ensures Natural(Digits(n)) == Some(n)
    decreases n
  {
    if n < 10 {
      assert Digits(n)[..0] == [];
    } else {
      NaturalOfDigits(n / 10);
      assert Digits(n)[..|Digits(n)| - 1] == Digits(n / 10);
    }
  }

  lemma {:induction false} LeadingZero(s: string)
    ensures Natural("0" + s) == Natural(s)
    decreases |s|
  {
    if s == [] {
      assert "0"[..0] == [];
      assert "0" + s == "0";
    } else {
      LeadingZero(s[..|s| - 1]);
      assert ("0" + s)[..|s|] == "0" + s[..|s| - 1];
    }
  }

  lemma ParseUnsigned(s: string, low: int, high: int)
    requires s != [] && IsDigit(s[0]) && Natural(s).Some?
    ensures ParseInt(s, low, high) == if low <= Natural(s).value <= high then Some(Natural(s).value) else None
  {
  }

  lemma ParseNegative(s: string, low: int, high: int)
    requires s != [] && Natural(s).Some? && low <= 0 - Natural(s).value <= high
    ensures ParseInt("-" + s, low, high) == Some(0 - Natural(s).value)
  {
    assert ("-" + s)[1..] == s;
  }

  lemma ParseOfItoa(n: int, low: int, high: int)
    requires low <= n <= high
    ensures ParseInt(Itoa(n), low, high) == Some(n)
  {
    if n < 0 {
      NaturalOfDigits(-n);
      ParseNegative(Digits(-n), low, high);
    } else {
      NaturalOfDigits(n);
      ParseUnsigned(Digits(n), low, high);
    }
  }

  lemma ParseOfPad2(n: nat, low: int, high: int)
    ensures ParseInt(Pad2(n), low, high) == if low <= n <= high then Some(n) else None
  {
    NaturalOfDigits(n);
    LeadingZero(Digits(n));
    ParseUnsigned(Pad2(n), low, high);
  }

  // ---- trimming ----

  predicate IsSpace(c: char) {
    var n := c as int;
    9 <= n <= 13 || n == 32 || n == 0x85 || n == 0xA0 || n == 0x1680 || 0x2000 <= n <= 0x200A || n == 0x2028
    || n == 0x2029 || n == 0x202F || n == 0x205F || n == 0x3000
  }

  function Trim(s: string, cut: char -> bool): string {
    if s != [] && cut(s[0]) then Trim(s[1..], cut)
    else if s != [] && cut(s[|s| - 1]) then Trim(s[..|s| - 1], cut)
    else s
  }

  function TrimSpace(s: string): string { Trim(s, IsSpace) }

  predicate IsBrace(c: char) { c == '{' || c == '}' }

  // ---- splitting and joining ----

  function Split(s: string, sep: char): (parts: seq<string>)
    ensures |parts| >= 1
  {
    if s == [] then [[]]
    else
      var rest := Split(s[1..], sep);
      if s[0] == sep then [[]] + rest else [[s[0]] + rest[0]] + rest[1..]
  }

  function Join(parts: seq<string>, sep: char): string {
    if parts == [] then ""
    else if |parts| == 1 then parts[0]
    else parts[0] + ([sep] + Join(parts[1..], sep))
  }

  predicate Free(s: string, sep: char) { forall i :: 0 <= i < |s| ==> s[i] != sep }

  lemma {:induction false} SplitFree(s: string, sep: char)
    requires Free(s, sep)
    ensures Split(s, sep) == [s]
    decreases |s|
  {
    if s != [] {
      SplitFree(s[1..], sep);
      assert [s[0]] + s[1..] == s;
    }
  }

  lemma {:induction false} SplitHead(s: string, sep: char, rest: string)
    requires Free(s, sep)
    ensures Split(s + ([sep] + rest), sep) == [s] + Split(rest, sep)
    decreases |s|
  {
    var all := s + ([sep] + rest);
    if s == [] {
      assert all[1..] == rest;
    } else {
      assert all[1..] == s[1..] + ([sep] + rest);
      SplitHead(s[1..], sep, rest);
      assert [s[0]] + s[1..] == s;
    }
  }

  /** Splitting undoes joining when no part holds the separator. */
  lemma {:induction false} SplitOfJoin(parts: seq<string>, sep: char)
    requires parts != [] && forall i :: 0 <= i < |parts| ==> Free(parts[i], sep)
    ensures Split(Join(parts, sep), sep) == parts
    decreases |parts|
  {
    if |parts| == 1 {
      SplitFree(parts[0], sep);
    } else {
      SplitOfJoin(parts[1..], sep);
      SplitHead(parts[0], sep, Join(parts[1..], sep));
    }
  }
}
