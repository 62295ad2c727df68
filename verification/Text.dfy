/** String helpers with the meaning of Rust's `str` methods. */
module Text {
  import opened Wrappers

  /** The Unicode `White_Space` characters, which `str::trim` removes. */
  predicate IsWhitespace(c: char) {
    var n := c as int;
    || 0x9 <= n <= 0xD || n == 0x20 || n == 0x85 || n == 0xA0 || n == 0x1680
    || 0x2000 <= n <= 0x200A || n == 0x2028 || n == 0x2029 || n == 0x202F || n == 0x205F || n == 0x3000
  }

  function TrimStart(s: string): string {
    if s != "" && IsWhitespace(s[0]) then TrimStart(s[1..]) else s
  }

  function TrimEnd(s: string): string {
    if s != "" && IsWhitespace(s[|s| - 1]) then TrimEnd(s[..|s| - 1]) else s
  }

  function Trim(s: string): string {
    TrimEnd(TrimStart(s))
  }

  /** White space at both ends, and nothing else, is taken away. */
  lemma TrimExactly(s: string) returns (i: nat, j: nat)
    ensures i <= j <= |s| && Trim(s) == s[i..j]
    ensures (forall k :: 0 <= k < i ==> IsWhitespace(s[k])) && (forall k :: j <= k < |s| ==> IsWhitespace(s[k]))
    ensures i < j ==> !IsWhitespace(s[i]) && !IsWhitespace(s[j - 1])
  {
    i := StartOf(s);
    var n := EndOf(s[i..]);
    j := i + n;
    assert s[i..][..n] == s[i..j];
    assert forall k :: j <= k < |s| ==> s[k] == s[i..][k - i];
    if i < j {
      assert s[i..][0] == s[i] && s[i..][n - 1] == s[j - 1];
    }
  }

  lemma {:induction false} StartOf(s: string) returns (i: nat)
    ensures i <= |s| && TrimStart(s) == s[i..] && forall k :: 0 <= k < i ==> IsWhitespace(s[k])
    ensures i < |s| ==> !IsWhitespace(s[i])
  {
    if s != "" && IsWhitespace(s[0]) {
      var n := StartOf(s[1..]);
      i := n + 1;
      assert forall k :: 1 <= k < i ==> s[k] == s[1..][k - 1];
    } else {
      i := 0;
    }
  }

  lemma {:induction false} EndOf(s: string) returns (n: nat)
    ensures n <= |s| && TrimEnd(s) == s[..n] && forall k :: n <= k < |s| ==> IsWhitespace(s[k])
    ensures n > 0 ==> !IsWhitespace(s[n - 1])
  {
    if s != "" && IsWhitespace(s[|s| - 1]) {
      n := EndOf(s[..|s| - 1]);
      assert s[..|s| - 1][..n] == s[..n];
    } else {
      n := |s|;
    }
  }

  /** Only the 26 capital letters change, each to its own small one. */
  lemma LowerExactly(s: string)
    ensures |ToAsciiLower(s)| == |s|
    ensures forall i :: 0 <= i < |s| ==>
              ToAsciiLower(s)[i] as int == s[i] as int + if 65 <= s[i] as int <= 90 then 32 else 0
  {
  }

  function LowerChar(c: char): char {
    if 'A' <= c <= 'Z' then c - 'A' + 'a' else c
  }

  function ToAsciiLower(s: string): string {
    seq(|s|, i requires 0 <= i < |s| => LowerChar(s[i]))
  }

  /** The parts with a separator in between (`join`). */
  function Join(parts: seq<string>, sep: char): string {
    if parts == [] then ""
    else if |parts| == 1 then parts[0]
    else parts[0] + [sep] + Join(parts[1..], sep)
  }

  /** The pieces between separators (`split`). */
  function Split(s: string, sep: char): (r: seq<string>)
    ensures r != []
  {
    if s == "" then [""]
    else if s[0] == sep then [""] + Split(s[1..], sep)
    else
      var rest := Split(s[1..], sep);
      [[s[0]] + rest[0]] + rest[1..]
  }

  /** The text before and after the first separator (`split_once`). */
  function SplitOnce(s: string, sep: char): (string, string) {
    if s == "" then ("", "")
    else if s[0] == sep then ("", s[1..])
    else
      var (a, b) := SplitOnce(s[1..], sep);
      ([s[0]] + a, b)
  }

  lemma {:induction false} SplitOnceJoined(a: string, b: string, sep: char)
    requires sep !in a
    ensures SplitOnce(a + [sep] + b, sep) == (a, b)
  {
    var s := a + [sep] + b;
    if a == "" {
      assert s[1..] == b;
    } else {
      assert s[1..] == a[1..] + [sep] + b;
      SplitOnceJoined(a[1..], b, sep);
      assert [a[0]] + a[1..] == a;
    }
  }

  function Digit(n: nat): char
    requires n < 10
  {
    '0' + n as char
  }

  /** Decimal notation (`to_string`). */
  function Decimal(n: nat): (s: string)
    ensures s != "" && forall i :: 0 <= i < |s| ==> '0' <= s[i] <= '9'
  {
    if n < 10 then [Digit(n)] else Decimal(n / 10) + [Digit(n % 10)]
  }

  /** The number a string of digits stands for. */
  function Value(s: string): nat
    requires forall i :: 0 <= i < |s| ==> '0' <= s[i] <= '9'
  {
    if s == "" then 0 else Value(s[..|s| - 1]) * 10 + (s[|s| - 1] - '0') as nat
  }

  lemma {:induction false} DecimalValue(n: nat)
    ensures Value(Decimal(n)) == n
  {
    if n >= 10 {
      DecimalValue(n / 10);
      var s := Decimal(n);
      assert s[..|s| - 1] == Decimal(n / 10);
    }
  }

  /** Decimal notation padded with zeros to three digits (`{:03}`). */
  function Padded(n: nat): (s: string)
    ensures forall i :: 0 <= i < |s| ==> '0' <= s[i] <= '9'
  {
    var d := Decimal(n);
    if |d| == 1 then "00" + d else if |d| == 2 then "0" + d else d
  }

  lemma {:induction false} LeadingZero(s: string)
    requires forall i :: 0 <= i < |s| ==> '0' <= s[i] <= '9'
    ensures Value("0" + s) == Value(s)
  {
    if s != "" {
      LeadingZero(s[..|s| - 1]);
      assert ("0" + s)[..|s|] == "0" + s[..|s| - 1];
    } else {
      assert ("0" + s)[..0] == "";
    }
  }

  lemma PaddedValue(n: nat)
    ensures Value(Padded(n)) == n
  {
    var d := Decimal(n);
    DecimalValue(n);
    if |d| < 3 {
      LeadingZero(d);
      if |d| == 1 {
        LeadingZero("0" + d);
        assert "0" + ("0" + d) == "00" + d;
      }
    }
  }

  const I32_MAX: int := 0x7fff_ffff

  predicate AllDigits(s: string) {
    forall i :: 0 <= i < |s| ==> '0' <= s[i] <= '9'
  }

  /** `parse::<i32>`: an optional sign, then digits, within 32 bits. */
  function ParseI32(s: string): Option<int> {
    var body := if s != "" && (s[0] == '-' || s[0] == '+') then s[1..] else s;
    if body == "" || !AllDigits(body) then None
    else
      var value: int := Value(body);
      var n := if s[0] == '-' then -value else value;
      if -I32_MAX - 1 <= n <= I32_MAX then Some(n) else None
  }

  lemma Unsigned(digits: string)
    requires digits != "" && AllDigits(digits)
    ensures ParseI32(digits) == if Value(digits) < 2147483648 then Some(Value(digits)) else None
  {
    assert '0' <= digits[0] <= '9';
  }

  lemma Signed(digits: string)
    requires digits != "" && AllDigits(digits)
    ensures ParseI32("+" + digits) == if Value(digits) < 2147483648 then Some(Value(digits)) else None
    ensures ParseI32("-" + digits) == if Value(digits) <= 2147483648 then Some(0 - (Value(digits) as int)) else None
  {
    assert ("+" + digits)[1..] == digits && ("-" + digits)[1..] == digits;
  }

  /** A number is read if and only if it is written as digits, with or without a sign before them,
      and lies in the signed 32-bit range. */
  lemma ParseI32Exactly(digits: string)
    requires digits != "" && AllDigits(digits)
    ensures ParseI32(digits) == ParseI32("+" + digits) == if Value(digits) < 2147483648 then Some(Value(digits)) else None
    ensures ParseI32("-" + digits) == if Value(digits) <= 2147483648 then Some(0 - (Value(digits) as int)) else None
  {
    Unsigned(digits);
    Signed(digits);
  }

  lemma ParseI32Refuses(s: string)
    requires !AllDigits(s) || s == ""
    requires s != "" && (s[0] == '-' || s[0] == '+') ==> s[1..] == "" || !AllDigits(s[1..])
    ensures ParseI32(s).None?
  {
  }

  lemma ParsesDecimal(n: nat)
    requires n <= I32_MAX
    ensures ParseI32(Decimal(n)) == Some(n)
  {
    DecimalValue(n);
    assert '0' <= Decimal(n)[0] <= '9';
  }

  /** A line of digits trims to the digits. */
  lemma TrimsLine(digits: string)
    requires digits != "" && AllDigits(digits)
    ensures Trim(digits + "\n") == digits
  {
    var line := digits + "\n";
    assert line[0] == digits[0] && TrimStart(line) == line;
    assert line[..|line| - 1] == digits;
    assert TrimEnd(digits) == digits;
  }
}
