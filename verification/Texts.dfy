/**
 Byte-level text handling behind the ESP32 frames: splitting, trimming, the XOR checksum and decimal numbers. A text is
 the sequence of its UTF-8 bytes, each byte written as the character with that code.
 */
module Texts {
  import opened Common
  import opened Numbers

  type Text = string

  predicate IsByte(c: char) { c as int < 256 }

  // ---------- splitting ----------

  predicate Lacks(s: Text, c: char) { forall i :: 0 <= i < |s| ==> s[i] != c }

  /** `str::split('|')` */
  function Split(s: Text): (r: seq<Text>)
    ensures |r| >= 1
  {
    if s == [] then [[]]
    else if s[0] == '|' then [[]] + Split(s[1..])
    else var r := Split(s[1..]); [[s[0]] + r[0]] + r[1..]
  }

  /** `join("|")` */
  function Join(parts: seq<Text>): Text
    requires |parts| >= 1
  {
    if |parts| == 1 then parts[0] else parts[0] + "|" + Join(parts[1..])
  }

  /** `str::split_once('=')` */
  function SplitOnce(s: Text): Option<(Text, Text)> {
    if s == [] then None
    else if s[0] == '=' then Some(([], s[1..]))
    else match SplitOnce(s[1..])
      case None => None
      case Some(kv) => Some(([s[0]] + kv.0, kv.1))
  }

  lemma {:induction false} SplitWhole(s: Text)
    requires Lacks(s, '|')
    ensures Split(s) == [s]
  {
    if s != [] {
      assert Lacks(s[1..], '|');
      SplitWhole(s[1..]);
      assert s == [s[0]] + s[1..];
    }
  }

  lemma {:induction false} PartsLackBars(s: Text, i: nat)
    requires i < |Split(s)|
    ensures Lacks(Split(s)[i], '|')
  {
    if s != [] {
      if s[0] != '|' { PartsLackBars(s[1..], i); }
      else if i > 0 { PartsLackBars(s[1..], i - 1); }
    }
  }

  lemma {:induction false} FirstPartStarts(s: Text)
    ensures Split(s)[0] <= s
  {
    if s != [] && s[0] != '|' { FirstPartStarts(s[1..]); }
  }

  lemma {:induction false} SplitAtBar(a: Text, b: Text)
    ensures Split(a + "|" + b) == Split(a) + Split(b)
  {
    if a == [] {
      assert (a + "|" + b)[1..] == b;
    } else {
      assert (a + "|" + b)[1..] == a[1..] + "|" + b;
      SplitAtBar(a[1..], b);
    }
  }

  lemma {:induction false} JoinSplit(s: Text)
    ensures Join(Split(s)) == s
  {
    if s != [] {
      JoinSplit(s[1..]);
      var r := Split(s[1..]);
      assert ([[]] + r)[1..] == r;
      assert ([[s[0]] + r[0]] + r[1..])[1..] == r[1..];
    }
  }

  lemma {:induction false} SplitOnceKeyValue(k: Text, v: Text)
    requires Lacks(k, '=')
    ensures SplitOnce(k + "=" + v) == Some((k, v))
  {
    var s := k + "=" + v;
    if k == [] {
      assert s[1..] == v;
    } else {
      assert s[1..] == k[1..] + "=" + v;
      SplitOnceKeyValue(k[1..], v);
      assert k == [k[0]] + k[1..];
    }
  }

  lemma {:induction false} SplitOnceParts(s: Text)
    ensures SplitOnce(s).Some? ==> s == SplitOnce(s).value.0 + "=" + SplitOnce(s).value.1
    ensures SplitOnce(s).None? <==> Lacks(s, '=')
  {
    if s != [] { SplitOnceParts(s[1..]); }
  }

  // ---------- trimming ----------

  predicate IsAsciiSpace(c: char) { c == ' ' || '\t' <= c <= '\r' }

  predicate IsSpace2(c: char, d: char) { c == '\U{C2}' && (d == '\U{85}' || d == '\U{A0}') }

  predicate IsSpace3(c: char, d: char, e: char) {
    || (c == '\U{E1}' && d == '\U{9A}' && e == '\U{80}')
    || (c == '\U{E2}' && d == '\U{80}' && '\U{80}' <= e <= '\U{8A}')
    || (c == '\U{E2}' && d == '\U{80}' && (e == '\U{A8}' || e == '\U{A9}' || e == '\U{AF}'))
    || (c == '\U{E2}' && d == '\U{81}' && e == '\U{9F}')
    || (c == '\U{E3}' && d == '\U{80}' && e == '\U{80}')
  }

  /** The ASCII white space: tab, line feed, vertical tab, form feed, carriage return and space. */
  lemma AsciiSpaceIsExact(c: char)
    ensures IsAsciiSpace(c) <==> c as int in {9, 10, 11, 12, 13, 32}
  {
  }

  /** The white space of two UTF-8 bytes: U+0085 and U+00A0. */
  lemma Space2IsExact(c: char, d: char)
    requires 0xC0 <= c as int < 0xE0 && 0x80 <= d as int < 0xC0
    ensures IsSpace2(c, d) <==> (c as int - 0xC0) * 64 + (d as int - 0x80) in {0x85, 0xA0}
  {
  }

  function CodePoint3(c: char, d: char, e: char): int {
    (c as int - 0xE0) * 4096 + (d as int - 0x80) * 64 + (e as int - 0x80)
  }

  /** The white space of three UTF-8 bytes: U+1680, U+2000 to U+200A, U+2028, U+2029, U+202F, U+205F and U+3000. */
  lemma Space3IsExact(c: char, d: char, e: char)
    requires 0xE0 <= c as int < 0xF0 && 0x80 <= d as int < 0xC0 && 0x80 <= e as int < 0xC0
    ensures IsSpace3(c, d, e) <==>
            var p := CodePoint3(c, d, e);
            p in {0x1680, 0x2028, 0x2029, 0x202F, 0x205F, 0x3000} || 0x2000 <= p <= 0x200A
  {
  }

  /** The width in bytes of the white-space character a text starts with, zero if it starts with none. */
  function LeadingSpace(s: Text): (n: nat)
    ensures n <= |s| && n <= 3
  {
    if |s| >= 1 && IsAsciiSpace(s[0]) then 1
    else if |s| >= 2 && IsSpace2(s[0], s[1]) then 2
    else if |s| >= 3 && IsSpace3(s[0], s[1], s[2]) then 3
    else 0
  }

  function TrailingSpace(s: Text): (n: nat)
    ensures n <= |s| && n <= 3
  {
    var k := |s|;
    if k >= 1 && IsAsciiSpace(s[k - 1]) then 1
    else if k >= 2 && IsSpace2(s[k - 2], s[k - 1]) then 2
    else if k >= 3 && IsSpace3(s[k - 3], s[k - 2], s[k - 1]) then 3
    else 0
  }

  function TrimStart(s: Text): Text {
    if LeadingSpace(s) == 0 then s else TrimStart(s[LeadingSpace(s)..])
  }

  function TrimEnd(s: Text): Text {
    if TrailingSpace(s) == 0 then s else TrimEnd(s[..|s| - TrailingSpace(s)])
  }

  function Trim(s: Text): Text { TrimEnd(TrimStart(s)) }

  /** Trimming removes white space from one end, and nothing else. */
  lemma {:induction false} TrimStartExact(s: Text)
    ensures |TrimStart(s)| <= |s| && TrimStart(s) == s[|s| - |TrimStart(s)|..]
    ensures LeadingSpace(TrimStart(s)) == 0
    ensures TrimStart(s) == s <==> LeadingSpace(s) == 0
  {
    if LeadingSpace(s) > 0 { TrimStartExact(s[LeadingSpace(s)..]); }
  }

  lemma {:induction false} TrimEndExact(s: Text)
    ensures TrimEnd(s) <= s
    ensures TrailingSpace(TrimEnd(s)) == 0
    ensures TrimEnd(s) == s <==> TrailingSpace(s) == 0
  {
    if TrailingSpace(s) > 0 { TrimEndExact(s[..|s| - TrailingSpace(s)]); }
  }

  /** An ASCII byte other than white space: it ends every white-space run. */
  predicate IsSolid(c: char) { c < '\U{80}' && !IsAsciiSpace(c) }

  lemma {:induction false} TrimStartStops(a: Text, c: char, b: Text)
    requires IsSolid(c)
    ensures TrimStart(a + [c] + b) == TrimStart(a) + [c] + b
  {
    var s := a + [c] + b;
    var n := LeadingSpace(a);
    assert LeadingSpace(s) == n;
    if n > 0 {
      assert s[n..] == a[n..] + [c] + b;
      TrimStartStops(a[n..], c, b);
    }
  }

  lemma {:induction false} TrimEndStops(a: Text, c: char, b: Text)
    requires IsSolid(c)
    ensures TrimEnd(a + [c] + b) == a + [c] + TrimEnd(b)
  {
    var s := a + [c] + b;
    var n := TrailingSpace(b);
    assert TrailingSpace(s) == n;
    if n > 0 {
      assert s[..|s| - n] == a + [c] + b[..|b| - n];
      TrimEndStops(a, c, b[..|b| - n]);
    }
  }

  // ---------- XOR checksum ----------

  function Xor(a: nat, b: nat): nat {
    if a == 0 && b == 0 then 0 else (a + b) % 2 + 2 * Xor(a / 2, b / 2)
  }

  function Pow2(n: nat): nat { if n == 0 then 1 else 2 * Pow2(n - 1) }

  lemma {:induction false} XorBound(a: nat, b: nat, n: nat)
    requires a < Pow2(n) && b < Pow2(n)
    ensures Xor(a, b) < Pow2(n)
  {
    if n > 0 { XorBound(a / 2, b / 2, n - 1); }
  }

  lemma ParityCancels(a: nat, b: nat, x: nat, y: nat)
    requires (a + x) % 2 == (b + y) % 2 && (a / 2 == b / 2 <==> x / 2 == y / 2)
    ensures a == b <==> x == y
  {
  }

  lemma {:induction false} XorCancels(a: nat, b: nat, x: nat, y: nat)
    requires Xor(a, x) == Xor(b, y)
    ensures a == b <==> x == y
    decreases a + b + x + y
  {
    if a + b + x + y > 0 {
      assert Xor(a, x) == (a + x) % 2 + 2 * Xor(a / 2, x / 2);
      assert Xor(b, y) == (b + y) % 2 + 2 * Xor(b / 2, y / 2);
      XorCancels(a / 2, b / 2, x / 2, y / 2);
      ParityCancels(a, b, x, y);
    }
  }

  lemma XorDiffers(a: nat, b: nat, x: nat, y: nat)
    requires a == b <==> x != y
    ensures Xor(a, x) != Xor(b, y)
  {
    if Xor(a, x) == Xor(b, y) { XorCancels(a, b, x, y); }
  }

  function ByteOf(c: char): nat { c as int % 256 }

  /** The XOR fold over the bytes of a text. */
  function Fold(acc: nat, s: Text): nat
    decreases |s|
  {
    if s == [] then acc else Fold(Xor(acc, ByteOf(s[0])), s[1..])
  }

  function Checksum(s: Text): nat { Fold(0, s) }

  lemma {:induction false} FoldIsByte(acc: nat, s: Text)
    requires acc < 256
    ensures Fold(acc, s) < 256
    decreases |s|
  {
    assert Pow2(8) == 256;
    if s != [] {
      XorBound(acc, ByteOf(s[0]), 8);
      FoldIsByte(Xor(acc, ByteOf(s[0])), s[1..]);
    }
  }

  lemma {:induction false} FoldCarriesDifference(a: nat, b: nat, s: Text)
    requires a != b
    ensures Fold(a, s) != Fold(b, s)
    decreases |s|
  {
    if s != [] {
      XorDiffers(a, b, ByteOf(s[0]), ByteOf(s[0]));
      FoldCarriesDifference(Xor(a, ByteOf(s[0])), Xor(b, ByteOf(s[0])), s[1..]);
    }
  }

  lemma {:induction false} OneByteChangesFold(acc: nat, s: Text, i: nat, y: char)
    requires i < |s| && IsByte(s[i]) && IsByte(y) && y != s[i]
    ensures Fold(acc, s[i := y]) != Fold(acc, s)
    decreases |s|
  {
    if i == 0 {
      assert s[0 := y][1..] == s[1..];
      XorDiffers(acc, acc, ByteOf(y), ByteOf(s[0]));
      FoldCarriesDifference(Xor(acc, ByteOf(y)), Xor(acc, ByteOf(s[0])), s[1..]);
    } else {
      assert s[i := y][1..] == s[1..][i - 1 := y];
      OneByteChangesFold(Xor(acc, ByteOf(s[0])), s[1..], i - 1, y);
    }
  }

  /** One changed byte changes the checksum, wherever it is. */
  lemma OneByteChangesChecksum(s: Text, i: nat, y: char)
    requires i < |s| && IsByte(s[i]) && IsByte(y) && y != s[i]
    ensures Checksum(s[i := y]) != Checksum(s)
  {
    OneByteChangesFold(0, s, i, y);
  }

  function HexDigit(n: nat): char
    requires n < 16
  {
    if n < 10 then (n + 48) as char else (n + 55) as char
  }

  /** `{:02X}` of a byte. */
  function HexOf(n: nat): Text { [HexDigit(n / 16 % 16), HexDigit(n % 16)] }

  /** The fold of `checksum_hex` with its final formatting step. */
  function HexFrom(acc: nat, s: Text): Text
    decreases |s|
  {
    if s == [] then HexOf(acc) else HexFrom(Xor(acc, ByteOf(s[0])), s[1..])
  }

  /** `checksum_hex` */
  function ChecksumHex(s: Text): Text { HexFrom(0, s) }

  lemma {:induction false} HexFromFold(acc: nat, s: Text)
    ensures HexFrom(acc, s) == HexOf(Fold(acc, s))
    decreases |s|
  {
    if s != [] { HexFromFold(Xor(acc, ByteOf(s[0])), s[1..]); }
  }

  function Lower(c: char): char { if 'A' <= c <= 'Z' then (c as int + 32) as char else c }

  predicate EqIgnoreCase(a: Text, b: Text) {
    |a| == |b| && forall i :: 0 <= i < |a| ==> Lower(a[i]) == Lower(b[i])
  }

  lemma SameIgnoringCase(s: Text)
    ensures EqIgnoreCase(s, s)
  {
  }

  lemma HexDigitsDiffer(a: nat, b: nat)
    requires a < 16 && b < 16
    ensures Lower(HexDigit(a)) == Lower(HexDigit(b)) <==> a == b
    ensures IsSolid(HexDigit(a)) && HexDigit(a) != '|'
  {
  }

  lemma NibblesDetermine(m: nat, n: nat)
    requires m < 256 && n < 256 && m / 16 % 16 == n / 16 % 16 && m % 16 == n % 16
    ensures m == n
  {
  }

  lemma HexOfIsExact(m: nat, n: nat)
    requires m < 256 && n < 256
    ensures EqIgnoreCase(HexOf(m), HexOf(n)) ==> m == n
  {
    var x, y := HexOf(m), HexOf(n);
    if EqIgnoreCase(x, y) {
      assert Lower(x[0]) == Lower(y[0]) && Lower(x[1]) == Lower(y[1]);
      HexDigitsDiffer(m / 16 % 16, n / 16 % 16);
      HexDigitsDiffer(m % 16, n % 16);
      NibblesDetermine(m, n);
    }
  }

  /** What the frames rely on: two characters that neither separate nor are trimmed. */
  predicate IsHexText(hex: Text) { |hex| == 2 && Lacks(hex, '|') && IsSolid(hex[1]) }

  lemma ChecksumHexIsText(s: Text)
    ensures IsHexText(ChecksumHex(s))
  {
    HexFromFold(0, s);
    HexDigitsDiffer(Checksum(s) / 16 % 16, 0);
    HexDigitsDiffer(Checksum(s) % 16, 0);
  }

  /** Even compared without regard to case, equal hexadecimal texts mean equal checksums. */
  lemma HexIsExact(a: Text, b: Text)
    ensures EqIgnoreCase(ChecksumHex(a), ChecksumHex(b)) <==> Checksum(a) == Checksum(b)
  {
    HexFromFold(0, a);
    HexFromFold(0, b);
    FoldIsByte(0, a);
    FoldIsByte(0, b);
    SameIgnoringCase(ChecksumHex(a));
    HexOfIsExact(Checksum(a), Checksum(b));
  }

  // ---------- decimal numbers ----------

  predicate IsDigit(c: char) { '0' <= c <= '9' }

  predicate AllDigits(s: Text) { forall i :: 0 <= i < |s| ==> IsDigit(s[i]) }

  function Digit(n: nat): (c: char)
    requires n < 10
    ensures IsDigit(c)
  {
    (n + 48) as char
  }

  function PrintNat(n: nat): (s: Text)
    ensures |s| >= 1 && AllDigits(s)
  {
    if n < 10 then [Digit(n)] else PrintNat(n / 10) + [Digit(n % 10)]
  }

  function NatOf(s: Text): nat
    requires AllDigits(s)
  {
    if s == [] then 0 else 10 * NatOf(s[..|s| - 1]) + (s[|s| - 1] as int - 48)
  }

  lemma {:induction false} NatRoundTrip(n: nat)
    ensures NatOf(PrintNat(n)) == n
  {
    var s := PrintNat(n);
    if n < 10 {
      assert s[..|s| - 1] == [];
    } else {
      NatRoundTrip(n / 10);
      assert s[..|s| - 1] == PrintNat(n / 10);
    }
  }

  /** A number times a power of ten. */
  function Shift(x: real, e: int): real
    decreases if e < 0 then -e else e
  {
    if e == 0 then x else if e > 0 then 10.0 * Shift(x, e - 1) else Shift(x, e + 1) / 10.0
  }

  /** How many digits a text starts with. */
  function DigitCount(s: Text): (n: nat)
    ensures n <= |s| && AllDigits(s[..n])
    ensures n < |s| ==> !IsDigit(s[n])
  {
    if s == [] || !IsDigit(s[0]) then 0
    else
      var n := 1 + DigitCount(s[1..]);
      assert s[..n] == [s[0]] + s[1..][..n - 1];
      n
  }

  lemma DigitCountStops(a: Text, b: Text)
    requires AllDigits(a) && (b == [] || !IsDigit(b[0]))
    ensures DigitCount(a + b) == |a|
  {
    var n, s := DigitCount(a + b), a + b;
    assert forall i :: 0 <= i < n ==> IsDigit(s[..n][i]) && s[..n][i] == s[i];
    assert forall i :: 0 <= i < |a| ==> s[i] == a[i];
    assert b != [] ==> s[|a|] == b[0];
  }

  function HasSign(s: Text): bool { s != [] && (s[0] == '-' || s[0] == '+') }

  function ExponentOf(digits: Text, negative: bool): Option<int> {
    if digits == [] || DigitCount(digits) < |digits| then None
    else
      assert digits[..|digits|] == digits;
      Some(if negative then 0 - NatOf(digits) else NatOf(digits))
  }

  /** The power of ten an exponent such as `e-3` stands for; no exponent stands for zero. */
  function ParseExponent(s: Text): Option<int> {
    if s == [] then Some(0)
    else if s[0] != 'e' && s[0] != 'E' then None
    else if HasSign(s[1..]) then ExponentOf(s[2..], s[1] == '-')
    else ExponentOf(s[1..], false)
  }

  /** All the digits of a number, how many of them follow the point, and what comes after them. */
  function Scaled(digits: Text, decimals: nat, tail: Text): Option<real>
    requires AllDigits(digits)
  {
    if digits == [] then None
    else match ParseExponent(tail)
      case None => None
      case Some(e) => Some(Shift(NatOf(digits) as real, e - decimals))
  }

  function ParseUnsigned(s: Text): Option<real> {
    var n := DigitCount(s);
    var whole, rest := s[..n], s[n..];
    if rest != [] && rest[0] == '.' then
      var m := DigitCount(rest[1..]);
      Scaled(whole + rest[1..][..m], m, rest[1..][m..])
    else Scaled(whole, 0, rest)
  }

  function Negated(x: Option<real>): Option<real> {
    if x.Some? then Some(-x.value) else None
  }

  /** `str::parse::<f64>` on finite decimal notation. */
  function ParseNumber(s: Text): Option<real> {
    if !HasSign(s) then ParseUnsigned(s)
    else if s[0] == '-' then Negated(ParseUnsigned(s[1..]))
    else ParseUnsigned(s[1..])
  }

  function Magnitude(x: real): nat {
    RoundHalfAway((if x < 0.0 then -x else x) * 100.0)
  }

  /** A number of hundredths in decimal notation. */
  function Fixed(h: nat): Text {
    PrintNat(h / 100) + "." + [Digit(h / 10 % 10), Digit(h % 10)]
  }

  /** `{:.2}` */
  function Print2(x: real): Text {
    var h := Magnitude(x);
    if x < 0.0 then "-" + Fixed(h) else Fixed(h)
  }

  lemma NatOfTwoMore(s: Text, d: nat, e: nat)
    requires AllDigits(s) && d < 10 && e < 10
    ensures NatOf(s + [Digit(d), Digit(e)]) == 100 * NatOf(s) + 10 * d + e
  {
    var all := s + [Digit(d), Digit(e)];
    assert all[..|all| - 1] == s + [Digit(d)];
    assert (s + [Digit(d)])[..|s|] == s;
  }

  lemma ExponentOfDigits(digits: Text, negative: bool)
    requires AllDigits(digits) && digits != []
    ensures ExponentOf(digits, negative) == Some(if negative then 0 - NatOf(digits) else NatOf(digits))
    ensures !HasSign(digits)
  {
    DigitCountStops(digits, []);
    assert digits + [] == digits;
  }

  /** An exponent is `e` or `E`, a sign or none, and at least one digit. */
  lemma ExponentReads(mark: char, digits: Text)
    requires (mark == 'e' || mark == 'E') && AllDigits(digits) && digits != []
    ensures ParseExponent([mark] + digits) == Some(NatOf(digits))
  {
    assert ([mark] + digits)[1..] == digits;
    ExponentOfDigits(digits, false);
  }

  lemma SignedExponentReads(mark: char, sign: char, digits: Text)
    requires (mark == 'e' || mark == 'E') && (sign == '+' || sign == '-') && AllDigits(digits) && digits != []
    ensures ParseExponent([mark, sign] + digits) == Some(if sign == '-' then 0 - NatOf(digits) else NatOf(digits))
  {
    var s := [mark, sign] + digits;
    assert s[1..] == [sign] + digits && s[2..] == digits;
    ExponentOfDigits(digits, sign == '-');
  }

  /** A leading plus sign changes nothing. */
  lemma PlusReads(s: Text)
    ensures ParseNumber("+" + s) == ParseUnsigned(s)
  {
    assert ("+" + s)[1..] == s;
  }

  /** Shifting by one is one multiplication or division by ten. */
  lemma ShiftIsPowerOfTen(x: real, n: nat)
    ensures Shift(x, 0) == x && Shift(x, n + 1) == 10.0 * Shift(x, n)
    ensures 10.0 * Shift(x, 0 - n - 1) == Shift(x, 0 - n)
  {
  }

  /** A number without a point is its digits, shifted by its exponent. */
  lemma ParseWhole(whole: Text, tail: Text)
    requires AllDigits(whole) && whole != [] && (tail == [] || (!IsDigit(tail[0]) && tail[0] != '.'))
    ensures ParseUnsigned(whole + tail)
         == match ParseExponent(tail) case None => None case Some(e) => Some(Shift(NatOf(whole) as real, e))
  {
    var s := whole + tail;
    DigitCountStops(whole, tail);
    assert s[..|whole|] == whole && s[|whole|..] == tail;
  }

  lemma PointEndsWhole(whole: Text, rest: Text)
    requires AllDigits(whole)
    ensures
      var s := whole + "." + rest;
      DigitCount(s) == |whole| && s[..|whole|] == whole && s[|whole|..] == "." + rest
  {
    assert whole + "." + rest == whole + ("." + rest);
    DigitCountStops(whole, "." + rest);
  }

  lemma FractionToEnd(frac: Text)
    requires AllDigits(frac)
    ensures DigitCount(frac) == |frac| && frac[..|frac|] == frac && frac[|frac|..] == []
  {
    DigitCountStops(frac, []);
    assert frac + [] == frac;
  }

  lemma ParseFixed(whole: Text, frac: Text)
    requires AllDigits(whole) && AllDigits(frac) && whole != []
    ensures ParseUnsigned(whole + "." + frac) == Some(Shift(NatOf(whole + frac) as real, -|frac|))
  {
    PointEndsWhole(whole, frac);
    FractionToEnd(frac);
    assert ("." + frac)[1..] == frac;
  }

  lemma Hundreds(h: nat)
    ensures h == 100 * (h / 100) + 10 * (h / 10 % 10) + h % 10
  {
    var q := h / 10;
    assert q / 10 == h / 100;
  }

  lemma FixedShape(h: nat)
    ensures Lacks(Fixed(h), '|') && |Fixed(h)| >= 4 && IsDigit(Fixed(h)[0]) && IsSolid(Fixed(h)[|Fixed(h)| - 1])
  {
  }

  lemma UnsignedRoundTrip(h: nat)
    ensures ParseUnsigned(Fixed(h)) == Some(h as real / 100.0)
  {
    var d, e := h / 10 % 10, h % 10;
    var whole, frac := PrintNat(h / 100), [Digit(d), Digit(e)];
    ParseFixed(whole, frac);
    assert NatOf(whole + frac) == h by {
      NatRoundTrip(h / 100);
      NatOfTwoMore(whole, d, e);
      Hundreds(h);
    }
    assert Shift(h as real, -2) == Shift(h as real, -1) / 10.0;
  }

  lemma RoundSymmetric(x: real)
    ensures RoundHalfAway(-x) == -RoundHalfAway(x)
  {
  }

  lemma MagnitudeIsRounded(x: real)
    ensures Round2(x) == if x < 0.0 then -(Magnitude(x) as real / 100.0) else Magnitude(x) as real / 100.0
  {
    RoundSymmetric(x * 100.0);
    assert (-x) * 100.0 == -(x * 100.0);
  }

  lemma ParseNegative(s: Text)
    ensures ParseNumber("-" + s) == Negated(ParseUnsigned(s))
  {
    var t := "-" + s;
    assert t[0] == '-' && t[1..] == s;
  }

  lemma FixedRoundTrip(h: nat)
    ensures ParseNumber(Fixed(h)) == Some(h as real / 100.0)
    ensures ParseNumber("-" + Fixed(h)) == Some(-(h as real / 100.0))
  {
    var s := Fixed(h);
    UnsignedRoundTrip(h);
    FixedShape(h);
    ParseNegative(s);
  }

  /** What a printed value parses back to: the value rounded to two decimals. */
  lemma PrintParse(x: real)
    ensures ParseNumber(Print2(x)) == Some(Round2(x))
  {
    FixedRoundTrip(Magnitude(x));
    MagnitudeIsRounded(x);
  }

  lemma Print2Shape(x: real)
    ensures Lacks(Print2(x), '|') && |Print2(x)| >= 4 && IsSolid(Print2(x)[|Print2(x)| - 1])
  {
    FixedShape(Magnitude(x));
  }
}
