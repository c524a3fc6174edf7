/**
 The C string and number conversions the server relies on: text up to the terminator,
 ASCII case folding, bounded comparison, decimal printing and `atoll`.
 */
module CStrings {

  const NUL: char := '\0'

  /** Text as C and XML hold it: no NUL inside. */
  type Text = s: string | NUL !in s

  type UInt64 = n: nat | n < 0x1_0000_0000_0000_0000

  datatype Option<+T> = None | Some(value: T)

  /** The C string held by a buffer: everything before the first NUL. */
  function CString(buffer: seq<char>): (s: Text)
    ensures |s| <= |buffer| && s == buffer[..|s|]
    ensures |s| < |buffer| ==> buffer[|s|] == NUL
  {
    if buffer == [] || buffer[0] == NUL then ""
    else
      var rest: Text := CString(buffer[1..]);
      [buffer[0]] + rest
  }

  /** The two facts in the contract of CString determine it. */
  lemma {:induction false} CStringIs(buffer: seq<char>, s: Text)
    requires |s| <= |buffer| && s == buffer[..|s|]
    requires |s| < |buffer| ==> buffer[|s|] == NUL
    ensures CString(buffer) == s
  {
    if s != "" {
      assert buffer[1..][..|s| - 1] == s[1..];
      CStringIs(buffer[1..], s[1..]);
    }
  }

  function From(s: Text, n: nat): (r: Text)
    requires n <= |s|
    ensures r == s[n..]
  {
    var r := s[n..];
    assert forall c :: c in r ==> c in s;
    r
  }

  function Take(s: string, n: nat): (r: string)
    ensures |r| == if |s| < n then |s| else n
  {
    if |s| < n then s else s[..n]
  }

  function Lower(c: char): char {
    if 'A' <= c <= 'Z' then (c as int + 32) as char else c
  }

  function LowerAll(s: string): (r: string)
    ensures |r| == |s|
    ensures forall i :: 0 <= i < |s| ==> r[i] == Lower(s[i])
  {
    seq(|s|, i requires 0 <= i < |s| => Lower(s[i]))
  }

  /** strcmp-style tests, true when C returns 0. */
  predicate StrCaseEq(a: string, b: string) {
    LowerAll(a) == LowerAll(b)
  }

  /** The same character, or the two cases of one ASCII letter. */
  predicate SameLetter(a: char, b: char) {
    || a == b
    || ('a' <= a <= 'z' && b as int == a as int - 32)
    || ('a' <= b <= 'z' && a as int == b as int - 32)
  }

  /** Equal ignoring case, character by character. */
  predicate SameText(a: string, b: string) {
    |a| == |b| && forall i :: 0 <= i < |a| ==> SameLetter(a[i], b[i])
  }

  /** Begins with the word, ignoring case. */
  predicate Begins(s: string, word: string) {
    |s| >= |word| && forall i :: 0 <= i < |word| ==> SameLetter(s[i], word[i])
  }

  lemma {:induction false} LowerIff(a: char, b: char)
    ensures Lower(a) == Lower(b) <==> SameLetter(a, b)
  {
  }

  lemma {:induction false} LowerAllIff(a: string, b: string)
    ensures LowerAll(a) == LowerAll(b) <==> SameText(a, b)
  {
    if |a| == |b| {
      forall i | 0 <= i < |a| ensures LowerAll(a)[i] == LowerAll(b)[i] <==> SameLetter(a[i], b[i]) {
        LowerIff(a[i], b[i]);
      }
      if LowerAll(a) != LowerAll(b) {
        var i :| 0 <= i < |a| && LowerAll(a)[i] != LowerAll(b)[i];
        assert !SameLetter(a[i], b[i]);
      }
    } else {
      assert |LowerAll(a)| != |LowerAll(b)|;
    }
  }

  /** strcasecmp finds equal exactly the texts that are equal but for the case of letters. */
  lemma {:induction false} StrCaseEqIff(a: string, b: string)
    ensures StrCaseEq(a, b) <==> SameText(a, b)
  {
    LowerAllIff(a, b);
  }

  /** strncasecmp does so on the first n characters. */
  lemma {:induction false} StrNCaseEqIff(a: string, b: string, n: nat)
    ensures StrNCaseEq(a, b, n) <==>
            if |a| >= n && |b| >= n then SameText(a[..n], b[..n]) else SameText(a, b)
  {
    LowerAllIff(Take(a, n), Take(b, n));
  }

  predicate StrNEq(a: string, b: string, n: nat) {
    Take(a, n) == Take(b, n)
  }

  predicate StrNCaseEq(a: string, b: string, n: nat): (same: bool)
    ensures same && |b| >= n ==> |a| >= n
  {
    assert |LowerAll(Take(a, n))| == |Take(a, n)|;
    LowerAll(Take(a, n)) == LowerAll(Take(b, n))
  }

  // Decimal text

  predicate IsDigit(c: char) {
    '0' <= c <= '9'
  }

  predicate AllDigits(s: string) {
    forall i :: 0 <= i < |s| ==> IsDigit(s[i])
  }

  function Digit(d: nat): (c: char)
    requires d < 10
    ensures IsDigit(c) && c as int - '0' as int == d
  {
    (d + '0' as int) as char
  }

  /** What "%lu" prints. */
  function Decimal(n: nat): (s: Text)
    ensures |s| >= 1 && AllDigits(s)
  {
    if n < 10 then [Digit(n)]
    else
      var front: Text := Decimal(n / 10);
      front + [Digit(n % 10)]
  }

  /** The number a string of digits denotes. */
  function DigitsValue(s: string): nat
    requires AllDigits(s)
  {
    if s == "" then 0
    else DigitsValue(s[..|s| - 1]) * 10 + (s[|s| - 1] as int - '0' as int)
  }

  lemma {:induction false} DecimalDenotes(n: nat)
    ensures DigitsValue(Decimal(n)) == n
  {
    if n < 10 {
      assert DigitsValue([Digit(n)][..0]) == 0;
    } else {
      DecimalDenotes(n / 10);
      var s := Decimal(n);
      assert s[..|s| - 1] == Decimal(n / 10);
    }
  }

  function Pow10(k: nat): nat {
    if k == 0 then 1 else 10 * Pow10(k - 1)
  }

  lemma {:induction false} DecimalLength(n: nat, k: nat)
    requires 1 <= k && n < Pow10(k)
    ensures |Decimal(n)| <= k
  {
    assert Pow10(1) == 10;
    if n >= 10 {
      DecimalLength(n / 10, k - 1);
    }
  }

  predicate IsSpace(c: char) {
    c == ' ' || '\t' <= c <= '\r'
  }

  function SkipSpaces(s: string): string {
    if s != "" && IsSpace(s[0]) then SkipSpaces(s[1..]) else s
  }

  function LeadingDigits(s: string): (r: string)
    ensures AllDigits(r) && |r| <= |s| && r == s[..|r|]
    ensures |r| < |s| ==> !IsDigit(s[|r|])
  {
    if s != "" && IsDigit(s[0]) then [s[0]] + LeadingDigits(s[1..]) else ""
  }

  const LLONG_MAX := 0x7FFF_FFFF_FFFF_FFFF
  const LLONG_MIN := -0x8000_0000_0000_0000

  function Clamp(i: int): int {
    if i > LLONG_MAX then LLONG_MAX else if i < LLONG_MIN then LLONG_MIN else i
  }

  /** `atoll`: white space, an optional sign, digits; out-of-range values saturate, as strtoll does. */
  function Atoll(s: string): (i: int)
    ensures LLONG_MIN <= i <= LLONG_MAX
  {
    var t := SkipSpaces(s);
    if t != "" && t[0] == '-' then Clamp(-(DigitsValue(LeadingDigits(t[1..])) as int))
    else if t != "" && t[0] == '+' then Clamp(DigitsValue(LeadingDigits(t[1..])))
    else Clamp(DigitsValue(LeadingDigits(t)))
  }

  /** The conversion of a long long argument to a uint64_t parameter. */
  function ToUInt64(i: int): UInt64
    requires LLONG_MIN <= i <= LLONG_MAX
  {
    if i < 0 then i + 0x1_0000_0000_0000_0000 else i
  }

  lemma {:induction false} AtollOfDecimal(n: nat)
    ensures Atoll(Decimal(n)) == if n <= LLONG_MAX then n else LLONG_MAX
  {
    var s := Decimal(n);
    assert IsDigit(s[0]);
    var d := LeadingDigits(s);
    assert |d| == |s| && d == s;
    DecimalDenotes(n);
  }

  /** The white space of the C locale. */
  predicate White(c: char) {
    c == ' ' || c == '\t' || c == '\n' || c == 11 as char || c == 12 as char || c == '\r'
  }

  lemma {:induction false} SkipSpacesOf(spaces: string, rest: string)
    requires forall i :: 0 <= i < |spaces| ==> White(spaces[i])
    requires rest == "" || !White(rest[0])
    ensures SkipSpaces(spaces + rest) == rest
    decreases |spaces|
  {
    if spaces == "" {
      assert spaces + rest == rest;
    } else {
      SkipSpacesOf(spaces[1..], rest);
      assert (spaces + rest)[1..] == spaces[1..] + rest;
    }
  }

  lemma {:induction false} LeadingDigitsOf(digits: string, rest: string)
    requires forall i :: 0 <= i < |digits| ==> '0' <= digits[i] <= '9'
    requires rest == "" || !('0' <= rest[0] <= '9')
    ensures LeadingDigits(digits + rest) == digits
    decreases |digits|
  {
    if digits == "" {
      assert digits + rest == rest;
    } else {
      LeadingDigitsOf(digits[1..], rest);
      assert (digits + rest)[1..] == digits[1..] + rest;
    }
  }

  /** The number some digits denote, digit by digit. */
  lemma {:induction false} DigitsValueNext(digits: string, c: char)
    requires AllDigits(digits) && '0' <= c <= '9'
    ensures DigitsValue("") == 0
    ensures AllDigits(digits + [c]) && DigitsValue(digits + [c]) == 10 * DigitsValue(digits) + (c as int - '0' as int)
  {
    assert (digits + [c])[..|digits|] == digits;
  }

  predicate AtEnd(rest: string) {
    rest == "" || !('0' <= rest[0] <= '9')
  }

  /** atoll on every text: white space, a sign or none, the digits as far as they go, and whatever follows. */
  lemma {:induction false} AtollReads(spaces: string, sign: string, digits: string, rest: string)
    requires forall i :: 0 <= i < |spaces| ==> White(spaces[i])
    requires sign in {"", "+", "-"} && AllDigits(digits) && AtEnd(rest)
    requires forall i :: 0 <= i < |digits| ==> '0' <= digits[i] <= '9'
    requires sign == "" && digits == "" ==>
               rest == "" || (!White(rest[0]) && rest[0] != '+' && rest[0] != '-')
    ensures var value := if sign == "-" then -(DigitsValue(digits) as int) else DigitsValue(digits);
            Atoll(spaces + (sign + (digits + rest))) ==
            if value > 0x7FFF_FFFF_FFFF_FFFF then 0x7FFF_FFFF_FFFF_FFFF
            else if value < -0x8000_0000_0000_0000 then -0x8000_0000_0000_0000
            else value
  {
    AfterSign(sign, digits, rest);
    SkipSpacesOf(spaces, sign + (digits + rest));
    LeadingDigitsOf(digits, rest);
  }

  lemma {:induction false} AfterSign(sign: string, digits: string, rest: string)
    requires sign in {"", "+", "-"}
    requires forall i :: 0 <= i < |digits| ==> '0' <= digits[i] <= '9'
    requires sign == "" && digits == "" ==>
               rest == "" || (!White(rest[0]) && rest[0] != '+' && rest[0] != '-')
    ensures var t := sign + (digits + rest);
            && (t == "" || !White(t[0]))
            && (sign == "" ==> t == digits + rest && (t == "" || (t[0] != '+' && t[0] != '-')))
            && (sign != "" ==> t != "" && t[0] == sign[0] && t[1..] == digits + rest)
  {
    var t := sign + (digits + rest);
    if sign == "" {
      assert t == digits + rest;
    } else {
      assert |sign| == 1 && t[1..] == digits + rest;
    }
  }
}
