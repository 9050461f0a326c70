/** The string handling of the client: the trailing-whitespace trim of
    `read_line` and the decimal rendering of integers (`to_string`) used when
    arguments are pushed onto a `show-text` command. */
module Text {

  /** Unicode White_Space, the set Rust's `char::is_whitespace` and `str::trim_end` use. */
  predicate IsWhitespace(c: char) {
    || '\U{0009}' <= c <= '\U{000D}'
    || c == '\U{0020}'
    || c == '\U{0085}'
    || c == '\U{00A0}'
    || c == '\U{1680}'
    || '\U{2000}' <= c <= '\U{200A}'
    || c == '\U{2028}'
    || c == '\U{2029}'
    || c == '\U{202F}'
    || c == '\U{205F}'
    || c == '\U{3000}'
  }

  /** `s` with its whole trailing run of whitespace removed: the longest prefix
      that does not end in whitespace, all of the rest being whitespace. */
  function TrimEnd(s: string): (r: string)
    ensures |r| <= |s| && r == s[..|r|]
    ensures r == [] || !IsWhitespace(r[|r| - 1])
    ensures forall k :: |r| <= k < |s| ==> IsWhitespace(s[k])
    decreases |s|
  {
    if s != [] && IsWhitespace(s[|s| - 1]) then TrimEnd(s[..|s| - 1]) else s
  }

  /** The three properties in TrimEnd's contract determine its result. */
  lemma TrimEndUnique(s: string, p: string)
    requires |p| <= |s| && p == s[..|p|]
    requires p == [] || !IsWhitespace(p[|p| - 1])
    requires forall k :: |p| <= k < |s| ==> IsWhitespace(s[k])
    ensures p == TrimEnd(s)
  {
    var r := TrimEnd(s);
    assert r != [] ==> r[|r| - 1] == s[|r| - 1];
    assert p != [] ==> p[|p| - 1] == s[|p| - 1];
  }

  /** Any amount of trailing whitespace, not only one newline, is removed. */
  lemma TrimEndIgnoresTrailingWhitespace(s: string, w: string)
    requires forall k :: 0 <= k < |w| ==> IsWhitespace(w[k])
    ensures TrimEnd(s + w) == TrimEnd(s)
  {
    var r := TrimEnd(s);
    assert (s + w)[..|r|] == r;
    forall k | |r| <= k < |s + w|
      ensures IsWhitespace((s + w)[k])
    {
      if k >= |s| {
        assert (s + w)[k] == w[k - |s|];
      }
    }
    TrimEndUnique(s + w, r);
  }

  /** Trimming twice is trimming once. */
  lemma TrimEndIdempotent(s: string)
    ensures TrimEnd(TrimEnd(s)) == TrimEnd(s)
  {
    var r := TrimEnd(s);
    assert r[..|r|] == r;
    TrimEndUnique(r, r);
  }

  predicate IsDigit(c: char) {
    '0' <= c <= '9'
  }

  function DigitChar(d: nat): (c: char)
    requires d < 10
  {
    ('0' as int + d) as char
  }

  function DigitValue(c: char): nat
    requires IsDigit(c)
  {
    c as int - '0' as int
  }

  /** Decimal notation of a natural number, as Rust's `to_string` writes it. */
  function NatToDecimal(n: nat): (r: string)
    ensures |r| >= 1
    ensures forall k :: 0 <= k < |r| ==> IsDigit(r[k])
    ensures r[0] == '0' ==> n == 0 && r == "0"
    decreases n
  {
    if n < 10 then [DigitChar(n)] else NatToDecimal(n / 10) + [DigitChar(n % 10)]
  }

  /** Decimal notation of an integer: a minus sign exactly for negative numbers,
      then at least one digit, with a leading zero only for 0 itself. */
  function IntToDecimal(i: int): (r: string)
    ensures |r| >= 1
    ensures (r[0] == '-') <==> i < 0
    ensures i < 0 ==> |r| >= 2
    ensures i >= 0 ==> IsDigit(r[0])
    ensures forall k :: 0 < k < |r| ==> IsDigit(r[k])
    ensures r[if i < 0 then 1 else 0] == '0' ==> i == 0 && r == "0"
  {
    if i < 0 then "-" + NatToDecimal(-i) else NatToDecimal(i)
  }

  /** The number a string of digits denotes. */
  function DecimalValue(s: string): nat
    requires forall k :: 0 <= k < |s| ==> IsDigit(s[k])
  {
    if s == [] then 0 else DecimalValue(s[..|s| - 1]) * 10 + DigitValue(s[|s| - 1])
  }

  /** The number an optionally signed string of digits denotes. */
  function SignedValue(s: string): int
    requires |s| >= 1
    requires forall k :: 0 < k < |s| ==> IsDigit(s[k])
    requires s[0] == '-' || IsDigit(s[0])
  {
    if s[0] == '-' then -(DecimalValue(s[1..]) as int) else DecimalValue(s)
  }

  /** Reading back the decimal notation of `n` gives `n`. */
  lemma {:induction false} NatToDecimalRoundTrip(n: nat)
    ensures DecimalValue(NatToDecimal(n)) == n
    decreases n
  {
    var s := NatToDecimal(n);
    if n >= 10 {
      NatToDecimalRoundTrip(n / 10);
      assert s[..|s| - 1] == NatToDecimal(n / 10);
    } else {
      assert s[..|s| - 1] == [];
    }
  }

  /** Reading back the signed decimal notation of `i` gives `i`. */
  lemma IntToDecimalRoundTrip(i: int)
    ensures SignedValue(IntToDecimal(i)) == i
  {
    var s := IntToDecimal(i);
    if i < 0 {
      assert s[1..] == NatToDecimal(-i);
      NatToDecimalRoundTrip(-i);
    } else {
      NatToDecimalRoundTrip(i);
    }
  }
}
