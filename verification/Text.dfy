/**
 Strings as the Rust standard library treats them where the protocol depends on it:
 decimal numerals, `str::parse` on unsigned integers, splitting, trimming, ASCII lower case,
 and UTF-8. A character is a Unicode scalar value.
 */
module Text {
  import opened Wrappers

  type Byte = x: int | 0 <= x < 256

  const U32_BOUND: nat := 0x1_0000_0000
  const U64_BOUND: nat := 0x1_0000_0000_0000_0000

  // ---------------------------------------------------------------- decimal numerals

  predicate IsDigit(c: char) {
    '0' <= c <= '9'
  }

  predicate AllDigits(s: string) {
    forall i :: 0 <= i < |s| ==> IsDigit(s[i])
  }

  function DigitChar(d: nat): (c: char)
    requires d < 10
    ensures IsDigit(c) && c as int - '0' as int == d
  {
    ('0' as int + d) as char
  }

  /** `n.to_string()` for an unsigned integer. */
  function Decimal(n: nat): (s: string)
    ensures s != "" && AllDigits(s)
  {
    if n < 10 then [DigitChar(n)] else Decimal(n / 10) + [DigitChar(n % 10)]
  }

  function NumeralValue(s: string): nat
    requires AllDigits(s)
  {
    if s == "" then 0
    else 10 * NumeralValue(s[..|s| - 1]) + (s[|s| - 1] as int - '0' as int)
  }

  /** `s.parse()` for an unsigned type whose values lie below `bound`: one leading `+` is
      allowed before at least one digit, nothing else but digits, and no overflow. */
  function ParseUnsigned(s: string, bound: nat): Option<nat> {
    var digits := if |s| > 1 && s[0] == '+' then s[1..] else s;
    if digits != "" && AllDigits(digits) && NumeralValue(digits) < bound
    then Some(NumeralValue(digits)) else None
  }

  lemma {:induction false} NumeralValueOfDecimal(n: nat)
    ensures NumeralValue(Decimal(n)) == n
  {
    if n >= 10 {
      NumeralValueOfDecimal(n / 10);
      var s := Decimal(n);
      assert s[..|s| - 1] == Decimal(n / 10);
    }
  }

  /** Printing a number and reading it back gives the number, or an overflow error. */
  lemma ParseDecimal(n: nat, bound: nat)
    ensures ParseUnsigned(Decimal(n), bound) == if n < bound then Some(n) else None
  {
    NumeralValueOfDecimal(n);
    assert Decimal(n)[0] != '+';
  }

  lemma DecimalInjective(m: nat, n: nat)
    requires Decimal(m) == Decimal(n)
    ensures m == n
  {
    NumeralValueOfDecimal(m);
    NumeralValueOfDecimal(n);
  }

  /** A text of digits is the numeral of its value with some zeros before it. */
  lemma {:induction false} NumeralShape(s: string)
    requires s != "" && AllDigits(s)
    ensures exists zeros: nat :: s == Zeros(zeros) + Decimal(NumeralValue(s))
  {
    var front, last := s[..|s| - 1], s[|s| - 1];
    var d := last as int - '0' as int;
    assert s == front + [last] && DigitChar(d) == last;
    if front == "" {
      assert NumeralValue(front) == 0;
      assert s == Zeros(0) + Decimal(d);
    } else {
      NumeralShape(front);
      var zeros: nat :| front == Zeros(zeros) + Decimal(NumeralValue(front));
      DigitAfter(zeros, NumeralValue(front), d);
    }
  }

  lemma DigitAfter(zeros: nat, n: nat, d: nat)
    requires d < 10
    ensures exists more: nat :: Zeros(zeros) + Decimal(n) + [DigitChar(d)] == Zeros(more) + Decimal(10 * n + d)
  {
    var s := Zeros(zeros) + Decimal(n) + [DigitChar(d)];
    if n == 0 {
      assert s == Zeros(zeros + 1) + Decimal(d);
    } else {
      assert (10 * n + d) / 10 == n && (10 * n + d) % 10 == d;
      assert s == Zeros(zeros) + Decimal(10 * n + d);
    }
  }

  function Zeros(n: nat): (s: string)
    ensures |s| == n && forall i :: 0 <= i < n ==> s[i] == '0'
  {
    seq(n, _ => '0')
  }

  lemma {:induction false} NumeralValueOfZeros(zeros: nat, n: nat)
    ensures AllDigits(Zeros(zeros) + Decimal(n)) && NumeralValue(Zeros(zeros) + Decimal(n)) == n
    decreases n, zeros
  {
    var s := Zeros(zeros) + Decimal(n);
    if n >= 10 {
      NumeralValueOfZeros(zeros, n / 10);
      assert s[..|s| - 1] == Zeros(zeros) + Decimal(n / 10);
    } else if zeros > 0 {
      NumeralValueOfZeros(zeros - 1, 0);
      assert s[..|s| - 1] == Zeros(zeros - 1) + Decimal(0);
    } else {
      assert s[..|s| - 1] == "";
    }
  }

  /** A text is taken for a number exactly if it is the number's numeral with any zeros before it and
      at most one plus sign before those, and the number is below the bound. */
  lemma ParseUnsignedExactly(s: string, bound: nat, n: nat)
    ensures ParseUnsigned(s, bound) == Some(n)
            <==> n < bound
                 && exists zeros: nat :: s == Zeros(zeros) + Decimal(n) || s == "+" + Zeros(zeros) + Decimal(n)
  {
    hide NumeralValue, Decimal;
    if ParseUnsigned(s, bound) == Some(n) {
      var digits := if |s| > 1 && s[0] == '+' then s[1..] else s;
      NumeralShape(digits);
      var zeros: nat :| digits == Zeros(zeros) + Decimal(n);
      assert s == digits || s == "+" + digits;
      assert "+" + digits == "+" + Zeros(zeros) + Decimal(n);
    }
    forall zeros: nat | n < bound && (s == Zeros(zeros) + Decimal(n) || s == "+" + Zeros(zeros) + Decimal(n))
      ensures ParseUnsigned(s, bound) == Some(n)
    {
      NumeralWithZeros(zeros, n, s, bound);
    }
  }

  lemma NumeralWithZeros(zeros: nat, n: nat, s: string, bound: nat)
    requires n < bound && (s == Zeros(zeros) + Decimal(n) || s == "+" + Zeros(zeros) + Decimal(n))
    ensures ParseUnsigned(s, bound) == Some(n)
  {
    hide NumeralValue, Decimal;
    NumeralValueOfZeros(zeros, n);
    var digits := Zeros(zeros) + Decimal(n);
    assert IsDigit(digits[0]) && !IsDigit('+');
    if s != digits {
      assert s == "+" + digits && s[1..] == digits;
    }
  }

  lemma {:induction false} DecimalLength(n: nat, digits: nat, bound: nat)
    requires digits > 0 && bound == Pow10(digits) && n < bound
    ensures |Decimal(n)| <= digits
    decreases digits
  {
    assert bound == 10 * Pow10(digits - 1);
    if n >= 10 && digits > 1 {
      DecimalLength(n / 10, digits - 1, Pow10(digits - 1));
    }
  }

  function Pow10(k: nat): nat {
    if k == 0 then 1 else 10 * Pow10(k - 1)
  }

  // ---------------------------------------------------------------- white space

  /** The Unicode property White_Space. */
  predicate IsWhitespace(c: char) {
    var n := c as int;
    0x09 <= n <= 0x0D || n == 0x20 || n == 0x85 || n == 0xA0 || n == 0x1680 || 0x2000 <= n <= 0x200A
    || n == 0x2028 || n == 0x2029 || n == 0x202F || n == 0x205F || n == 0x3000
  }

  predicate NoWhitespace(s: string) {
    forall i :: 0 <= i < |s| ==> !IsWhitespace(s[i])
  }

  /** The length of the longest prefix of `s` without white space. */
  function TokenLength(s: string): (n: nat)
    ensures n <= |s| && NoWhitespace(s[..n])
    ensures n < |s| ==> IsWhitespace(s[n])
  {
    if s == "" || IsWhitespace(s[0]) then 0
    else
      var n := TokenLength(s[1..]);
      assert s[..n + 1] == [s[0]] + s[1..][..n];
      n + 1
  }

  /** `s.split_whitespace()` */
  function SplitWhitespace(s: string): seq<string> {
    if s == "" then []
    else if IsWhitespace(s[0]) then SplitWhitespace(s[1..])
    else
      var n := TokenLength(s);
      assert n > 0;
      [s[..n]] + SplitWhitespace(s[n..])
  }

  lemma SplitWhitespaceToken(token: string, rest: string)
    requires token != "" && NoWhitespace(token)
    requires rest == "" || IsWhitespace(rest[0])
    ensures SplitWhitespace(token + rest) == [token] + SplitWhitespace(rest)
  {
    var s := token + rest;
    var n := TokenLength(s);
    assert forall i :: 0 <= i < |token| ==> s[i] == token[i];
    assert rest != "" ==> s[|token|] == rest[0];
    assert n >= |token|;
    assert forall i :: 0 <= i < n ==> s[i] == s[..n][i];
    assert s[..n] == token && s[n..] == rest;
  }

  lemma SplitWhitespaceLast(token: string)
    requires token != "" && NoWhitespace(token)
    ensures SplitWhitespace(token) == [token]
  {
    SplitWhitespaceToken(token, "");
    assert token + "" == token;
  }

  lemma SplitWhitespaceSpace(s: string)
    ensures SplitWhitespace(" " + s) == SplitWhitespace(s)
  {
    assert (" " + s)[1..] == s;
  }

  function TrimStart(s: string): string {
    if s != "" && IsWhitespace(s[0]) then TrimStart(s[1..]) else s
  }

  function TrimEnd(s: string): string {
    if s != "" && IsWhitespace(s[|s| - 1]) then TrimEnd(s[..|s| - 1]) else s
  }

  /** `s.trim()` */
  function Trim(s: string): string {
    TrimEnd(TrimStart(s))
  }

  /** No white space at either end. */
  predicate Trimmed(s: string) {
    s == "" || (!IsWhitespace(s[0]) && !IsWhitespace(s[|s| - 1]))
  }

  // ---------------------------------------------------------------- splitting at a character

  /** The index of the first `c` in `s`, or `|s|` when there is none. */
  function IndexOf(s: string, c: char): (i: nat)
    ensures i <= |s|
    ensures i < |s| ==> s[i] == c
    ensures c !in s[..i]
  {
    if s == "" || s[0] == c then 0
    else
      var i := IndexOf(s[1..], c);
      assert s[..i + 1] == [s[0]] + s[1..][..i];
      i + 1
  }

  /** `s.split(c)`: always at least one part. */
  function Split(s: string, c: char): (parts: seq<string>)
    ensures parts != []
    decreases |s|
  {
    var i := IndexOf(s, c);
    if i == |s| then [s] else [s[..i]] + Split(s[i + 1..], c)
  }

  /** `parts.join(c)` */
  function Join(parts: seq<string>, c: char): string {
    if parts == [] then ""
    else if |parts| == 1 then parts[0]
    else parts[0] + [c] + Join(parts[1..], c)
  }

  predicate FreeOf(parts: seq<string>, c: char) {
    forall i :: 0 <= i < |parts| ==> c !in parts[i]
  }

  lemma IndexOfPrefix(head: string, c: char, tail: string)
    requires c !in head
    ensures IndexOf(head + [c] + tail, c) == |head|
    ensures IndexOf(head, c) == |head|
  {
    var s := head + [c] + tail;
    var i := IndexOf(s, c);
    assert forall j :: 0 <= j < |head| ==> s[j] == head[j] && head[j] in head;
    assert s[|head|] == c;
    assert i >= |head|;
    assert forall j :: 0 <= j < i ==> s[j] == s[..i][j];
  }

  lemma SplitStep(head: string, c: char, tail: string)
    requires c !in head
    ensures Split(head + [c] + tail, c) == [head] + Split(tail, c)
  {
    hide IndexOf;
    var s := head + [c] + tail;
    IndexOfPrefix(head, c, tail);
    assert s[..|head|] == head && s[|head| + 1..] == tail;
  }

  lemma SplitLast(s: string, c: char)
    requires c !in s
    ensures Split(s, c) == [s]
  {
    hide IndexOf;
    IndexOfPrefix(s, c, "");
  }

  /** Splitting a joined list gives the list back. */
  lemma {:induction false} SplitJoin(parts: seq<string>, c: char)
    requires parts != [] && FreeOf(parts, c)
    ensures Split(Join(parts, c), c) == parts
  {
    hide IndexOf, Split;
    if |parts| == 1 {
      SplitLast(parts[0], c);
      assert parts == [parts[0]];
    } else {
      SplitStep(parts[0], c, Join(parts[1..], c));
      SplitJoin(parts[1..], c);
      assert parts == [parts[0]] + parts[1..];
    }
  }

  /** Joining the parts of a split string gives the string back, and no part holds the separator. */
  lemma {:induction false} JoinSplit(s: string, c: char)
    ensures Join(Split(s, c), c) == s && FreeOf(Split(s, c), c)
    decreases |s|
  {
    hide IndexOf;
    var i := IndexOf(s, c);
    if i == |s| {
      assert s[..i] == s;
    } else {
      var head, tail := s[..i], Split(s[i + 1..], c);
      JoinSplit(s[i + 1..], c);
      assert Split(s, c) == [head] + tail && ([head] + tail)[1..] == tail;
      assert s == head + [c] + s[i + 1..];
    }
  }

  /** The index of the last `c` in `s`, if there is one. */
  function LastIndexOf(s: string, c: char): (r: Option<nat>)
    ensures r.Some? ==> r.value < |s| && s[r.value] == c && c !in s[r.value + 1..]
    ensures r.None? ==> c !in s
  {
    if s == "" then None
    else if s[|s| - 1] == c then Some(|s| - 1)
    else
      var r := LastIndexOf(s[..|s| - 1], c);
      assert r.Some? ==> s[r.value + 1..] == s[..|s| - 1][r.value + 1..] + [s[|s| - 1]];
      assert s == s[..|s| - 1] + [s[|s| - 1]];
      r
  }

  /** `s.rsplit_once(c)` */
  function RSplitOnce(s: string, c: char): (r: Option<(string, string)>)
    ensures r.Some? ==> s == r.value.0 + [c] + r.value.1 && c !in r.value.1
    ensures r.None? ==> c !in s
  {
    match LastIndexOf(s, c)
    case Some(i) => Some((s[..i], s[i + 1..]))
    case None => None
  }

  /** Where the last `c` is, two equal strings come apart in the same way. */
  lemma LastSplitUnique(a: string, b: string, a': string, b': string, c: char)
    requires a + [c] + b == a' + [c] + b' && c !in b && c !in b'
    ensures a == a' && b == b'
  {
    var s := a + [c] + b;
    AfterLast(a, b, c);
    AfterLast(a', b', c);
    assert |a| == |a'|;
    assert a == s[..|a|] && b == s[|a| + 1..];
  }

  lemma AfterLast(a: string, b: string, c: char)
    requires c !in b
    ensures
      var s := a + [c] + b;
      s[|a|] == c && forall j :: |a| < j < |s| ==> s[j] != c
  {
    var s := a + [c] + b;
    forall j | |a| < j < |s| ensures s[j] != c {
      assert s[j] == b[j - |a| - 1];
    }
  }

  /** Where the first `c` is, two equal strings come apart in the same way. */
  lemma FirstSplitUnique(a: string, b: string, a': string, b': string, c: char)
    requires a + [c] + b == a' + [c] + b' && c !in a && c !in a'
    ensures a == a' && b == b'
  {
    var s := a + [c] + b;
    assert forall i :: 0 <= i < |a| ==> s[i] == a[i] && a[i] in a;
    assert forall i :: 0 <= i < |a'| ==> s[i] == a'[i] && a'[i] in a';
    assert s[|a|] == c && s[|a'|] == c;
    assert |a| == |a'|;
    assert a == s[..|a|] && b == s[|a| + 1..];
  }

  // ---------------------------------------------------------------- case

  function LowerChar(c: char): char {
    if 'A' <= c <= 'Z' then (c as int + 32) as char else c
  }

  /** `s.to_lowercase()` on ASCII letters. */
  function Lower(s: string): (r: string)
    ensures |r| == |s|
  {
    seq(|s|, i requires 0 <= i < |s| => LowerChar(s[i]))
  }

  /** `c` is the capital letter of `d`. */
  predicate CapitalOf(c: char, d: char) {
    'A' <= c <= 'Z' && d as int == c as int + 32
  }

  /** Equal but for the case of letters. */
  predicate SameButCase(s: string, t: string) {
    |s| == |t| && forall i :: 0 <= i < |s| ==> s[i] == t[i] || CapitalOf(s[i], t[i]) || CapitalOf(t[i], s[i])
  }

  lemma LowerTells(s: string, t: string)
    ensures Lower(s) == Lower(t) <==> SameButCase(s, t)
  {
    if Lower(s) == Lower(t) {
      forall i | 0 <= i < |s| ensures s[i] == t[i] || CapitalOf(s[i], t[i]) || CapitalOf(t[i], s[i]) {
        assert LowerChar(s[i]) == Lower(s)[i] == Lower(t)[i] == LowerChar(t[i]);
      }
    }
  }

  lemma LowerConcat(a: string, b: string)
    ensures Lower(a + b) == Lower(a) + Lower(b)
  {
  }

  lemma LowerIdempotent(s: string)
    ensures Lower(Lower(s)) == Lower(s)
  {
  }

  // ---------------------------------------------------------------- bytes

  predicate Ascii(s: string) {
    forall i :: 0 <= i < |s| ==> s[i] as int < 128
  }

  /** `s.as_bytes()` for an ASCII string. */
  function Encode(s: string): (b: seq<Byte>)
    requires Ascii(s)
    ensures |b| == |s|
  {
    seq(|s|, i requires 0 <= i < |s| => s[i] as int)
  }

  predicate Continuation(b: seq<Byte>, i: nat) {
    i < |b| && 0x80 <= b[i] < 0xC0
  }

  /** The payload bits of a byte whose marker bits are `marker`. */
  function Bits(b: Byte, marker: int): int {
    b - marker
  }

  /** One UTF-8 sequence at the front of `b`: the scalar value and the number of bytes it takes.
      Overlong forms, surrogates and values above U+10FFFF are invalid. */
  function DecodeScalar(b: seq<Byte>): (r: Option<(char, nat)>)
    requires b != []
    ensures r.Some? ==> 0 < r.value.1 <= |b|
  {
    if b[0] < 0x80 then Some((b[0] as char, 1))
    else if 0xC2 <= b[0] < 0xE0 && Continuation(b, 1) then
      Some(((Bits(b[0], 0xC0) * 0x40 + Bits(b[1], 0x80)) as char, 2))
    else if 0xE0 <= b[0] < 0xF0 && Continuation(b, 1) && Continuation(b, 2) then
      var v := Bits(b[0], 0xE0) * 0x1000 + Bits(b[1], 0x80) * 0x40 + Bits(b[2], 0x80);
      if 0x800 <= v && !(0xD800 <= v < 0xE000) then Some((v as char, 3)) else None
    else if 0xF0 <= b[0] < 0xF5 && Continuation(b, 1) && Continuation(b, 2) && Continuation(b, 3) then
      var v := Bits(b[0], 0xF0) * 0x4_0000 + Bits(b[1], 0x80) * 0x1000 + Bits(b[2], 0x80) * 0x40 + Bits(b[3], 0x80);
      if 0x1_0000 <= v < 0x11_0000 then Some((v as char, 4)) else None
    else None
  }

  /** The UTF-8 form of a scalar value, as section 3 of RFC 3629 gives it. */
  function ScalarBytes(c: char): (b: seq<Byte>)
    ensures 0 < |b| <= 4
  {
    var v := c as int;
    var high, low := v / 0x40, v % 0x40;
    var higher, middle := high / 0x40, high % 0x40;
    if v < 0x80 then [v]
    else if v < 0x800 then [0xC0 + high, 0x80 + low]
    else if v < 0x1_0000 then [0xE0 + higher, 0x80 + middle, 0x80 + low]
    else [0xF0 + higher / 0x40, 0x80 + higher % 0x40, 0x80 + middle, 0x80 + low]
  }

  lemma SixBits(q: int, r: int)
    requires 0 <= r < 0x40
    ensures (q * 0x40 + r) / 0x40 == q && (q * 0x40 + r) % 0x40 == r
  {
  }

  /** What is read at the front is a scalar value whose UTF-8 form stands there. */
  lemma ScalarRead(b: seq<Byte>)
    requires b != [] && DecodeScalar(b).Some?
    ensures DecodeScalar(b).value.1 <= |b|
    ensures ScalarBytes(DecodeScalar(b).value.0) == b[..DecodeScalar(b).value.1]
  {
    var (c, n) := DecodeScalar(b).value;
    if n == 2 {
      SixBits(Bits(b[0], 0xC0), Bits(b[1], 0x80));
      assert b[..2] == [b[0], b[1]];
    } else if n == 3 {
      var first := Bits(b[0], 0xE0) * 0x40 + Bits(b[1], 0x80);
      SixBits(Bits(b[0], 0xE0), Bits(b[1], 0x80));
      SixBits(first, Bits(b[2], 0x80));
      assert c as int == first * 0x40 + Bits(b[2], 0x80);
      assert b[..3] == [b[0], b[1], b[2]];
    } else if n == 4 {
      var first := Bits(b[0], 0xF0) * 0x40 + Bits(b[1], 0x80);
      var second := first * 0x40 + Bits(b[2], 0x80);
      SixBits(Bits(b[0], 0xF0), Bits(b[1], 0x80));
      SixBits(first, Bits(b[2], 0x80));
      SixBits(second, Bits(b[3], 0x80));
      assert c as int == second * 0x40 + Bits(b[3], 0x80);
      assert b[..4] == [b[0], b[1], b[2], b[3]];
    }
  }

  /** A UTF-8 form at the front is read as its scalar value. */
  lemma ScalarWritten(c: char, rest: seq<Byte>)
    ensures DecodeScalar(ScalarBytes(c) + rest) == Some((c, |ScalarBytes(c)|))
  {
    var v := c as int;
    var high, low := v / 0x40, v % 0x40;
    var higher, middle := high / 0x40, high % 0x40;
    assert v == high * 0x40 + low && high == higher * 0x40 + middle;
    var form := ScalarBytes(c);
    var b := form + rest;
    assert forall i :: 0 <= i < |form| ==> b[i] == form[i];
    if v >= 0x1_0000 {
      assert higher == higher / 0x40 * 0x40 + higher % 0x40;
    }
  }

  function Utf8(s: string): seq<Byte> {
    if s == "" then [] else ScalarBytes(s[0]) + Utf8(s[1..])
  }

  /** Bytes are read as a text exactly if they are its UTF-8 form. */
  lemma {:induction false} DecodedIsUtf8(b: seq<Byte>, s: string)
    ensures DecodeUtf8(b) == Some(s) <==> b == Utf8(s)
    decreases |b|
  {
    hide DecodeScalar, ScalarBytes;
    if b == Utf8(s) && s != "" {
      var form := ScalarBytes(s[0]);
      ScalarWritten(s[0], Utf8(s[1..]));
      assert b[|form|..] == Utf8(s[1..]);
      DecodedIsUtf8(b[|form|..], s[1..]);
      assert s == [s[0]] + s[1..];
    }
    if DecodeUtf8(b) == Some(s) && b != [] {
      var (c, n) := DecodeScalar(b).value;
      ScalarRead(b);
      assert s == [c] + DecodeUtf8(b[n..]).value && s[1..] == DecodeUtf8(b[n..]).value;
      DecodedIsUtf8(b[n..], s[1..]);
      assert b == ScalarBytes(c) + b[n..];
    }
  }

  /** `str::from_utf8(b)` */
  function DecodeUtf8(b: seq<Byte>): Option<string> {
    if b == [] then Some("")
    else
      match DecodeScalar(b)
      case None => None
      case Some((c, n)) =>
        match DecodeUtf8(b[n..])
        case None => None
        case Some(s) => Some([c] + s)
  }

  lemma {:induction false} DecodeEncode(s: string)
    requires Ascii(s)
    ensures DecodeUtf8(Encode(s)) == Some(s)
  {
    if s != "" {
      assert Encode(s)[1..] == Encode(s[1..]);
      DecodeEncode(s[1..]);
      assert s == [s[0]] + s[1..];
    }
  }

  /** The second byte of a three or four byte sequence, not to be overlong, a surrogate or beyond U+10FFFF. */
  predicate SecondFits(b: seq<Byte>)
    requires b != []
  {
    Continuation(b, 1)
    && (b[0] == 0xE0 ==> b[1] >= 0xA0) && (b[0] == 0xED ==> b[1] < 0xA0)
    && (b[0] == 0xF0 ==> b[1] >= 0x90) && (b[0] == 0xF4 ==> b[1] < 0x90)
  }

  /** How many bytes at the front begin a sequence that does not go on, and are replaced together. */
  function BadLength(b: seq<Byte>): (n: nat)
    requires b != []
    ensures 0 < n <= |b|
  {
    if 0xE0 <= b[0] < 0xF0 && SecondFits(b) then 2
    else if 0xF0 <= b[0] < 0xF5 && SecondFits(b) then if Continuation(b, 2) then 3 else 2
    else 1
  }

  const REPLACEMENT: char := 0xFFFD as char

  /** `String::from_utf8_lossy(b)` */
  function DecodeLossy(b: seq<Byte>): string {
    if b == [] then ""
    else
      match DecodeScalar(b)
      case Some((c, n)) => [c] + DecodeLossy(b[n..])
      case None => [REPLACEMENT] + DecodeLossy(b[BadLength(b)..])
  }

  /** On valid UTF-8 nothing is replaced. */
  lemma {:induction false} LossyValid(b: seq<Byte>)
    requires DecodeUtf8(b).Some?
    ensures DecodeLossy(b) == DecodeUtf8(b).value
  {
    hide DecodeScalar, BadLength;
    if b != [] {
      LossyValid(b[DecodeScalar(b).value.1..]);
    }
  }

  lemma LossyEncode(s: string)
    requires Ascii(s)
    ensures DecodeLossy(Encode(s)) == s
  {
    DecodeEncode(s);
    LossyValid(Encode(s));
  }
}
