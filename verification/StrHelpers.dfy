/** Trimming and number parsing (esptool/src/util/StrHelpers.cpp), together with the
    signed form the rule parser builds on it.

    `Numeral` is the reference meaning: the unbounded mathematical value of a decimal or
    0x-prefixed text. The methods are the bounded, loop-based code; they compute in
    `uint64`, so that verifying them also shows that no intermediate product wraps. */
module StrHelpers {
  import opened Wrappers

  const MAX_U64 := 0xFFFF_FFFF_FFFF_FFFF
  const MAX_U32 := 0xFFFF_FFFF

  newtype uint64 = x: int | 0 <= x <= 0xFFFF_FFFF_FFFF_FFFF
  newtype uint32 = x: int | 0 <= x <= 0xFFFF_FFFF
  newtype int32 = x: int | -0x8000_0000 <= x <= 0x7FFF_FFFF

  // ---------------------------------------------------------------- characters

  predicate IsSpace(c: char) {
    c == ' ' || c == '\t' || c == '\r' || c == '\n' || c == '\U{0C}' || c == '\U{0B}'
  }

  /** The value of a hexadecimal digit, or -1. */
  function HexValue(c: char): (v: int)
    ensures -1 <= v <= 15
    ensures 0 <= v <= 9 <==> '0' <= c <= '9'
  {
    if '0' <= c <= '9' then c as int - '0' as int
    else if 'a' <= c <= 'f' then c as int - 'a' as int + 10
    else if 'A' <= c <= 'F' then c as int - 'A' as int + 10
    else -1
  }

  predicate IsDigit(c: char, basis: nat) {
    0 <= HexValue(c) < basis
  }

  function FoldAscii(c: char): char {
    if 'A' <= c <= 'Z' then (c as int - 'A' as int + 'a' as int) as char else c
  }

  function ToLowerAscii(s: string): (r: string)
    ensures |r| == |s|
  {
    seq(|s|, i requires 0 <= i < |s| => FoldAscii(s[i]))
  }

  predicate EqualsIgnoreCase(left: string, right: string) {
    |left| == |right| && forall i :: 0 <= i < |left| ==> FoldAscii(left[i]) == FoldAscii(right[i])
  }

  /** White space is exactly the six ASCII characters. */
  lemma SpaceIsExactly(c: char)
    ensures IsSpace(c) <==> c as int in {9, 10, 11, 12, 13, 32}
  {}

  /** The digits, in both cases, in the order of their values, and nothing else. */
  lemma HexDigits(c: char)
    ensures forall d :: 0 <= d < 16 ==> HexValue("0123456789abcdef"[d]) == d && HexValue("0123456789ABCDEF"[d]) == d
    ensures HexValue(c) >= 0 <==> c in "0123456789abcdef" || c in "0123456789ABCDEF"
  {
    var lower, upper := "0123456789abcdef", "0123456789ABCDEF";
    if HexValue(c) >= 0 {
      assert c == lower[HexValue(c)] || c == upper[HexValue(c)];
    }
  }

  /** Folding moves the 26 capital letters onto the small ones and leaves every other character. */
  lemma FoldMovesCapitals(c: char)
    ensures FoldAscii(c) as int == if 65 <= c as int <= 90 then c as int + 32 else c as int
  {}

  // ---------------------------------------------------------------- trimming

  predicate Trimmed(s: string) {
    s != "" ==> !IsSpace(s[0]) && !IsSpace(s[|s| - 1])
  }

  predicate AllSpace(s: string) {
    forall i :: 0 <= i < |s| ==> IsSpace(s[i])
  }

  function TrimStart(s: string): string {
    if s != "" && IsSpace(s[0]) then TrimStart(s[1..]) else s
  }

  function TrimEnd(s: string): string {
    if s != "" && IsSpace(s[|s| - 1]) then TrimEnd(s[..|s| - 1]) else s
  }

  /** The text without its leading and trailing white space. */
  function Trim(s: string): string {
    TrimEnd(TrimStart(s))
  }

  lemma {:induction false} TrimStartSplits(s: string)
    ensures exists a :: AllSpace(a) && s == a + TrimStart(s)
    ensures TrimStart(s) != "" ==> !IsSpace(TrimStart(s)[0])
  {
    if s != "" && IsSpace(s[0]) {
      TrimStartSplits(s[1..]);
      var a :| AllSpace(a) && s[1..] == a + TrimStart(s[1..]);
      assert s == ([s[0]] + a) + TrimStart(s);
    } else {
      assert s == "" + TrimStart(s);
    }
  }

  lemma {:induction false} TrimEndSplits(s: string)
    ensures exists b :: AllSpace(b) && s == TrimEnd(s) + b
    ensures TrimEnd(s) != "" ==> !IsSpace(TrimEnd(s)[|TrimEnd(s)| - 1]) && TrimEnd(s)[0] == s[0]
  {
    if s != "" && IsSpace(s[|s| - 1]) {
      var s' := s[..|s| - 1];
      TrimEndSplits(s');
      var b :| AllSpace(b) && s' == TrimEnd(s') + b;
      assert s == TrimEnd(s) + (b + [s[|s| - 1]]);
    } else {
      assert s == TrimEnd(s) + "";
    }
  }

  /** Trimming removes white space only, and all of it at both ends. */
  lemma TrimSplits(s: string)
    ensures exists a, b :: AllSpace(a) && AllSpace(b) && s == a + Trim(s) + b
    ensures Trimmed(Trim(s))
  {
    TrimStartSplits(s);
    TrimEndSplits(TrimStart(s));
    var a :| AllSpace(a) && s == a + TrimStart(s);
    var b :| AllSpace(b) && TrimStart(s) == Trim(s) + b;
    assert s == a + Trim(s) + b;
  }

  lemma TrimmedStays(s: string)
    requires Trimmed(s)
    ensures Trim(s) == s
  {}

  /** The two index loops of the source compute `Trim`. */
  method TrimRange(value: string) returns (result: string)
    ensures result == Trim(value)
  {
    var begin, end := 0, |value|;
    assert value[begin..] == value;
    while begin < end && IsSpace(value[begin])
      invariant 0 <= begin <= end == |value|
      invariant TrimStart(value[begin..]) == TrimStart(value)
    {
      assert value[begin..][1..] == value[begin + 1..];
      begin := begin + 1;
    }
    assert value[begin..end] == TrimStart(value);
    while end > begin && IsSpace(value[end - 1])
      invariant begin <= end <= |value|
      invariant TrimEnd(value[begin..end]) == Trim(value)
    {
      assert value[begin..end][..end - begin - 1] == value[begin..end - 1];
      end := end - 1;
    }
    result := value[begin..end];
  }

  // ---------------------------------------------------------------- numerals

  predicate AllDigits(s: string, basis: nat) {
    forall i :: 0 <= i < |s| ==> IsDigit(s[i], basis)
  }

  /** The positional value of a digit string, most significant digit first. */
  function Value(s: string, basis: nat): nat
    requires AllDigits(s, basis)
  {
    if s == "" then 0
    else Value(s[..|s| - 1], basis) * basis + HexValue(s[|s| - 1])
  }

  /** The mathematical value of a trimmed numeral: decimal, or hexadecimal after 0x. */
  function Numeral(t: string): Option<nat> {
    var hex := |t| > 2 && t[0] == '0' && (t[1] == 'x' || t[1] == 'X');
    var body := if hex then t[2..] else t;
    var basis := if hex then 16 else 10;
    if body != "" && AllDigits(body, basis) then Some(Value(body, basis)) else None
  }

  /** What a signed numeral means: an optional minus sign in front of a numeral. The text
      after the sign is trimmed again, the text before it is not. */
  function SignedNumeral(text: string): Option<int> {
    if text != "" && text[0] == '-' then
      var n := Numeral(Trim(text[1..]));
      if n.Some? then Some(-(n.value as int)) else None
    else
      var n := Numeral(Trim(text));
      if n.Some? then Some(n.value as int) else None
  }

  /** Which texts are numerals: decimal digits only, or 0x and at least one hexadecimal digit. */
  lemma NumeralExactlyWhen(t: string)
    ensures Numeral(t).Some? <==>
      (t != "" && forall i :: 0 <= i < |t| ==> '0' <= t[i] <= '9')
      || (|t| > 2 && t[0] == '0' && (t[1] == 'x' || t[1] == 'X')
          && forall i :: 2 <= i < |t| ==> '0' <= t[i] <= '9' || 'a' <= t[i] <= 'f' || 'A' <= t[i] <= 'F')
  {
    if |t| > 2 && t[0] == '0' && (t[1] == 'x' || t[1] == 'X') {
      assert forall i :: 2 <= i < |t| ==> t[i] == t[2..][i - 2];
      assert forall i :: 0 <= i < |t| - 2 ==> t[2..][i] == t[i + 2];
    }
  }

  function Bounded(n: Option<nat>, max: nat): Option<nat> {
    if n.Some? && n.value <= max then n else None
  }

  lemma {:induction false} ValueOfPrefixIsSmaller(s: string, basis: nat, k: nat)
    requires AllDigits(s, basis) && basis >= 1 && k <= |s|
    ensures Value(s[..k], basis) <= Value(s, basis)
  {
    if k == |s| {
      assert s[..k] == s;
    } else {
      var s' := s[..|s| - 1];
      ValueOfPrefixIsSmaller(s', basis, k);
      assert s'[..k] == s[..k];
      assert Value(s', basis) * basis >= Value(s', basis) by {
        Grows(Value(s', basis), basis);
      }
    }
  }

  lemma Grows(a: nat, b: nat)
    requires b >= 1
    ensures a * b >= a
  {
    assert a * b == a * (b - 1) + a;
    assert a * (b - 1) >= 0;
  }

  /** The division-based guard rejects exactly the steps that would leave 64 bits. */
  lemma OverflowGuardIsExact(acc: nat, digit: nat, basis: nat)
    requires acc <= MAX_U64 && digit < basis <= 16
    ensures acc > (MAX_U64 - digit) / basis <==> acc * basis + digit > MAX_U64
  {
    var limit := MAX_U64 - digit;
    assert limit == (limit / basis) * basis + limit % basis && limit % basis < basis;
    if acc > limit / basis {
      assert acc * basis >= (limit / basis + 1) * basis;
    } else {
      assert acc * basis <= (limit / basis) * basis;
    }
  }

  /** One turn of the digit loop keeps the value of the digits read so far. */
  lemma NextDigit(body: string, basis: nat, k: nat)
    requires k < |body| && AllDigits(body[..k], basis) && IsDigit(body[k], basis)
    ensures AllDigits(body[..k + 1], basis)
    ensures Value(body[..k + 1], basis) == Value(body[..k], basis) * basis + HexValue(body[k])
  {
    assert body[..k + 1][..k] == body[..k];
  }

  lemma OverflowingPrefix(body: string, basis: nat, k: nat)
    requires basis >= 1 && k <= |body| && AllDigits(body[..k], basis) && Value(body[..k], basis) > MAX_U64
    ensures AllDigits(body, basis) ==> Value(body, basis) > MAX_U64
  {
    if AllDigits(body, basis) {
      ValueOfPrefixIsSmaller(body, basis, k);
    }
  }

  /** The digit loop of `ParseUnsigned`. */
  method ReadDigits(trimmed: string, start: nat, basis: uint64) returns (r: Option<uint64>)
    requires start <= |trimmed| && (basis == 10 || basis == 16)
    ensures var body := trimmed[start..];
            r.Some? <==> AllDigits(body, basis as nat) && Value(body, basis as nat) <= MAX_U64
    ensures r.Some? ==> r.value as nat == Value(trimmed[start..], basis as nat)
  {
    ghost var body, b := trimmed[start..], basis as nat;
    var accumulator: uint64, index := 0, start;
    while index < |trimmed|
      invariant start <= index <= |trimmed|
      invariant AllDigits(body[..index - start], b)
      invariant accumulator as int == Value(body[..index - start], b)
    {
      var digit := HexValue(trimmed[index]);
      var limit := if basis == 16 then 15 else 9;
      assert trimmed[index] == body[index - start];
      if digit < 0 || digit > limit {
        return None;
      }
      NextDigit(body, b, index - start);
      OverflowGuardIsExact(accumulator as int, digit, b);
      if accumulator > (0xFFFF_FFFF_FFFF_FFFF - digit as uint64) / basis {
        OverflowingPrefix(body, b, index - start + 1);
        return None;
      }
      accumulator := accumulator * basis + digit as uint64;
      index := index + 1;
    }
    assert body[..|body|] == body;
    return Some(accumulator);
  }

  /** `ParseUnsigned` succeeds exactly on the numerals of value at most 2^64 - 1 and then
      returns that value; otherwise the output is left as it was. */
  method ParseUnsigned(value: string, before: uint64) returns (ok: bool, out: uint64)
    ensures ok <==> Bounded(Numeral(Trim(value)), MAX_U64).Some?
    ensures ok ==> out as int == Numeral(Trim(value)).value
    ensures !ok ==> out == before
  {
    var trimmed := TrimRange(value);
    if trimmed == "" {
      return false, before;
    }
    var basis: uint64, index := 10, 0;
    if |trimmed| > 2 && trimmed[0] == '0' && (trimmed[1] == 'x' || trimmed[1] == 'X') {
      basis, index := 16, 2;
    }
    if index >= |trimmed| {
      return false, before;
    }
    assert trimmed[0..] == trimmed;
    var read := ReadDigits(trimmed, index, basis);
    if read.None? {
      return false, before;
    }
    return true, read.value;
  }

  /** `ParseSigned32` accepts exactly the signed numerals between -2^31 and 2^31 - 1. The
      negative branch is the source's two's-complement cast, which gives the value back. */
  method ParseSigned32(text: string, before: int32) returns (ok: bool, out: int32)
    ensures ok <==> SignedNumeral(text).Some? && -0x8000_0000 <= SignedNumeral(text).value <= 0x7FFF_FFFF
    ensures ok ==> out as int == SignedNumeral(text).value
    ensures !ok ==> out == before
  {
    out := before;
    if text == "" {
      return false, out;
    }
    var negative := text[0] == '-';
    var body := if negative then text[1..] else text;
    var parsedOk, parsed := ParseUnsigned(body, 0);
    if !parsedOk {
      return false, out;
    }
    if (if negative then parsed > 0x8000_0000 else parsed > 0x7FFF_FFFF) {
      return false, out;
    }
    if negative {
      var wrapped := (0x1_0000_0000 - parsed) % 0x1_0000_0000;
      out := (if wrapped >= 0x8000_0000 then wrapped as int - 0x1_0000_0000 else wrapped as int) as int32;
    } else {
      out := parsed as int32;
    }
    return true, out;
  }

  // ---------------------------------------------------------------- printing

  function DigitChar(d: nat): (c: char)
    requires d < 10
    ensures HexValue(c) == d
  {
    ('0' as int + d) as char
  }

  function Decimal(n: nat): (s: string)
    ensures s != ""
  {
    if n < 10 then [DigitChar(n)] else Decimal(n / 10) + [DigitChar(n % 10)]
  }

  function SignedDecimal(v: int): string {
    if v < 0 then "-" + Decimal(-v) else Decimal(v)
  }

  lemma {:induction false} DecimalDigits(n: nat)
    ensures AllDigits(Decimal(n), 10) && Value(Decimal(n), 10) == n
  {
    if n >= 10 {
      DecimalDigits(n / 10);
      assert Decimal(n)[..|Decimal(n)| - 1] == Decimal(n / 10);
    } else {
      assert Decimal(n)[..0] == "";
    }
  }

  /** A printed number reads back as itself. */
  lemma DecimalRoundTrip(n: nat)
    ensures Trim(Decimal(n)) == Decimal(n) && Numeral(Decimal(n)) == Some(n)
    ensures Decimal(n)[0] != '-'
  {
    DecimalDigits(n);
    var s := Decimal(n);
    assert IsDigit(s[0], 10) && IsDigit(s[|s| - 1], 10);
    if |s| > 2 {
      assert IsDigit(s[1], 10);
    }
    TrimmedStays(s);
  }

  lemma SignedDecimalRoundTrip(v: int)
    ensures SignedNumeral(SignedDecimal(v)) == Some(v)
  {
    DecimalRoundTrip(if v < 0 then -v else v);
    if v < 0 {
      assert SignedDecimal(v)[1..] == Decimal(-v);
    }
  }

  // ---------------------------------------------------------------- printing in hexadecimal

  function HexChar(d: nat, upper: bool): (c: char)
    requires d < 16
    ensures HexValue(c) == d
  {
    if d < 10 then ('0' as int + d) as char else ((if upper then 'A' else 'a') as int + (d - 10)) as char
  }

  function Hexadecimal(n: nat, upper: bool): (s: string)
    ensures s != ""
  {
    if n < 16 then [HexChar(n, upper)] else Hexadecimal(n / 16, upper) + [HexChar(n % 16, upper)]
  }

  lemma {:induction false} HexadecimalDigits(n: nat, upper: bool)
    ensures AllDigits(Hexadecimal(n, upper), 16) && Value(Hexadecimal(n, upper), 16) == n
  {
    if n >= 16 {
      HexadecimalDigits(n / 16, upper);
      assert Hexadecimal(n, upper)[..|Hexadecimal(n, upper)| - 1] == Hexadecimal(n / 16, upper);
    } else {
      assert Hexadecimal(n, upper)[..0] == "";
    }
  }

  /** A number printed in hexadecimal, with either prefix and in either case, reads back as itself. */
  lemma HexadecimalRoundTrip(n: nat, upper: bool, prefix: string)
    requires prefix == "0x" || prefix == "0X"
    ensures Trim(prefix + Hexadecimal(n, upper)) == prefix + Hexadecimal(n, upper)
    ensures Numeral(prefix + Hexadecimal(n, upper)) == Some(n)
  {
    HexadecimalDigits(n, upper);
    var digits := Hexadecimal(n, upper);
    var s := prefix + digits;
    assert IsDigit(digits[|digits| - 1], 16) && s[|s| - 1] == digits[|digits| - 1];
    TrimmedStays(s);
    assert s[2..] == digits;
  }

  /** A leading zero does not count. */
  lemma {:induction false} LeadingZero(s: string, basis: nat)
    requires basis >= 1 && AllDigits(s, basis) && AllDigits("0" + s, basis)
    ensures Value("0" + s, basis) == Value(s, basis)
  {
    var t := "0" + s;
    if s == "" {
      assert t[..0] == "";
    } else {
      var front := s[..|s| - 1];
      assert t[..|t| - 1] == "0" + front;
      LeadingZero(front, basis);
    }
  }
}
