/** The C library text primitives that the address code relies on. */
module Text {
  import opened Basics

  /** memchr(s + from, c, to - from), as an index. */
  function MemChr(s: string, from: nat, to: nat, c: char): (r: Option<nat>)
    requires from <= to <= |s|
    ensures r.Some? ==> from <= r.value < to && s[r.value] == c && c !in s[from..r.value]
    ensures r.None? ==> c !in s[from..to]
    decreases |s| - from
  {
    if from == to then None
    else if s[from] == c then Some(from)
    else MemChr(s, from + 1, to, c)
  }

  /** What stands before and after the first c. */
  function SplitAt(s: string, c: char): (r: Option<(string, string)>)
    ensures r.Some? ==> s == r.value.0 + [c] + r.value.1 && c !in r.value.0
    ensures r.None? ==> c !in s
  {
    if s == [] then None
    else if s[0] == c then Some(([], s[1..]))
    else
      var (before, after) :- SplitAt(s[1..], c);
      Some(([s[0]] + before, after))
  }

  /** The first occurrence is determined by what precedes it. */
  lemma {:induction false} SplitAtIs(before: string, c: char, after: string)
    requires c !in before
    ensures SplitAt(before + [c] + after, c) == Some((before, after))
  {
    var s := before + [c] + after;
    if before == [] {
      assert s[1..] == after;
    } else {
      SplitAtIs(before[1..], c, after);
      assert s[1..] == before[1..] + [c] + after;
      assert before == [before[0]] + before[1..];
    }
  }

  lemma {:induction false} SplitAtIsNone(s: string, c: char)
    requires c !in s
    ensures SplitAt(s, c).None?
  {
    if s != [] {
      SplitAtIsNone(s[1..], c);
    }
  }

  /** The scan by address and the split of the text are the same search. */
  lemma MemChrSplits(s: string, from: nat, to: nat, c: char)
    requires from <= to <= |s|
    ensures SplitAt(s[from..to], c) == match MemChr(s, from, to, c)
                                       case None => None
                                       case Some(i) => Some((s[from..i], s[i + 1..to]))
  {
    match MemChr(s, from, to, c)
    case None => SplitAtIsNone(s[from..to], c);
    case Some(i) =>
      SplitAtIs(s[from..i], c, s[i + 1..to]);
      assert s[from..to] == s[from..i] + [c] + s[i + 1..to];
  }

  // Decimal numbers

  predicate IsDigit(c: char) {
    '0' <= c <= '9'
  }

  function DigitValue(c: char): nat
    requires IsDigit(c)
  {
    c as int - '0' as int
  }

  function Digit(d: nat): (c: char)
    requires d < 10
    ensures IsDigit(c) && DigitValue(c) == d
  {
    (d + '0' as int) as char
  }

  /** std::to_string of an unsigned number. */
  function Decimal(n: nat): (s: string)
    ensures s != [] && forall c :: c in s ==> IsDigit(c)
  {
    if n < 10 then [Digit(n)] else Decimal(n / 10) + [Digit(n % 10)]
  }

  predicate IsSpace(c: char) {
    c == ' ' || '\t' <= c <= '\r'
  }

  function SkipSpace(s: string): string {
    if s != [] && IsSpace(s[0]) then SkipSpace(s[1..]) else s
  }

  /** The number written by the leading digits of s, appended to those already read. */
  function LeadingNumber(s: string, read: nat): nat {
    if s != [] && IsDigit(s[0]) then LeadingNumber(s[1..], 10 * read + DigitValue(s[0])) else read
  }

  /** atoi: blanks, an optional sign, digits; anything else ends the number. */
  function Atoi(s: string): int {
    var t := SkipSpace(s);
    if t != [] && t[0] == '-' then (var n: int := LeadingNumber(t[1..], 0); -n)
    else if t != [] && t[0] == '+' then LeadingNumber(t[1..], 0)
    else LeadingNumber(t, 0)
  }

  lemma {:induction false} LeadingNumberOfDecimal(n: nat, rest: string)
    ensures LeadingNumber(Decimal(n) + rest, 0) == LeadingNumber(rest, n)
  {
    if n < 10 {
      assert (Decimal(n) + rest)[1..] == rest;
    } else {
      var d := [Digit(n % 10)];
      LeadingNumberOfDecimal(n / 10, d + rest);
      assert Decimal(n) + rest == Decimal(n / 10) + (d + rest);
      assert (d + rest)[1..] == rest;
    }
  }

  lemma AtoiInvertsDecimal(n: nat)
    ensures Atoi(Decimal(n)) == n
  {
    var s := Decimal(n);
    assert IsDigit(s[0]);
    LeadingNumberOfDecimal(n, []);
    assert s + [] == s;
  }

  // What the digits stand for

  /** The number that decimal digits write, the last one being worth its own value. */
  function Number(digits: string): nat
    requires AllDigits(digits)
  {
    if digits == "" then 0
    else 10 * Number(digits[..|digits| - 1]) + (digits[|digits| - 1] as int - 48)
  }

  predicate AllDigits(s: string) {
    forall i :: 0 <= i < |s| ==> '0' <= s[i] <= '9'
  }

  predicate AllBlank(s: string) {
    forall c :: c in s ==> c in " \t\n\r" || c as int == 11 || c as int == 12
  }

  /** std::to_string writes the number in digits, and no leading zero. */
  lemma {:induction false} DecimalIsTheNumber(n: nat)
    ensures AllDigits(Decimal(n)) && Number(Decimal(n)) == n
    ensures n > 0 ==> Decimal(n)[0] != '0'
    ensures n == 0 ==> Decimal(n) == "0"
  {
    if n >= 10 {
      DecimalIsTheNumber(n / 10);
      assert Decimal(n)[..|Decimal(n)| - 1] == Decimal(n / 10);
    } else {
      assert Decimal(n)[..0] == "";
    }
  }

  lemma {:induction false} LeadingNumberOfDigits(digits: string, rest: string)
    requires AllDigits(digits)
    ensures LeadingNumber(digits + rest, 0) == LeadingNumber(rest, Number(digits))
  {
    if digits == "" {
      assert digits + rest == rest;
    } else {
      var init, last := digits[..|digits| - 1], digits[|digits| - 1];
      LeadingNumberOfDigits(init, [last] + rest);
      assert digits + rest == init + ([last] + rest) && ([last] + rest)[1..] == rest;
    }
  }

  lemma {:induction false} SkipBlanks(blanks: string, s: string)
    requires AllBlank(blanks)
    ensures SkipSpace(blanks + s) == SkipSpace(s)
  {
    if blanks == "" {
      assert blanks + s == s;
    } else {
      assert blanks[0] in blanks;
      SkipBlanks(blanks[1..], s);
      assert (blanks + s)[1..] == blanks[1..] + s;
    }
  }

  /** atoi reads blanks, one sign, digits, and stops at anything else. */
  lemma AtoiReads(blanks: string, sign: string, digits: string, rest: string)
    requires AllBlank(blanks) && sign in {"", "+", "-"} && AllDigits(digits)
    requires rest != "" ==> !('0' <= rest[0] <= '9')
    requires sign == "" && digits == "" && rest != "" ==> !AllBlank(rest[..1]) && rest[0] != '+' && rest[0] != '-'
    ensures Atoi(blanks + sign + digits + rest) == if sign == "-" then -(Number(digits) as int) else Number(digits)
  {
    var t := sign + digits + rest;
    assert blanks + sign + digits + rest == blanks + t;
    SkipBlanks(blanks, t);
    LeadingNumberOfDigits(digits, rest);
    if sign == "" {
      assert t == digits + rest;
      assert digits != "" ==> t[0] in digits;
      assert t != "" ==> t[0] == (digits + rest)[0];
      assert rest != "" ==> rest[..1] == [rest[0]];
    } else {
      assert t[1..] == digits + rest;
    }
    assert t != "" ==> !IsSpace(t[0]);
  }
}
