/** The few Python built-ins the camera code leans on, written out with the
    behaviour CPython gives them: `bytes.fromhex`, `bytes.hex`, `repr` of a
    one-character ASCII string, `str.strip`, slicing `s[k:]` and `str(int)`. */
module PyBuiltins {
  import opened Wrappers

  /** One element of a Python `bytes` object. */
  type byte = x: int | 0 <= x < 256

  /** The exceptions the modelled code lets escape. */
  datatype PyError =
    | ValueError   // bytes.fromhex on a non-hexadecimal string
    | TypeError    // a call with the wrong number of arguments, or None subscripted
    | Timeout      // socket.recv gave up after the socket's timeout

  // ---------------------------------------------------------------------------
  // Hexadecimal digits

  predicate IsHexDigit(c: char) {
    '0' <= c <= '9' || 'a' <= c <= 'f' || 'A' <= c <= 'F'
  }

  function HexDigitValue(c: char): (v: nat)
    requires IsHexDigit(c)
    ensures v < 16
  {
    if '0' <= c <= '9' then c as int - '0' as int
    else if 'a' <= c <= 'f' then c as int - 'a' as int + 10
    else c as int - 'A' as int + 10
  }

  /** The digit Python writes for a nibble: `0`-`9`, then `a`-`f`. */
  function LowerHexDigit(v: nat): (c: char)
    requires v < 16
    ensures IsHexDigit(c) && HexDigitValue(c) == v
    ensures !('A' <= c <= 'F')
  {
    if v < 10 then ('0' as int + v) as char else ('a' as int + v - 10) as char
  }

  /** ASCII letter case folding, the only case difference hex digits have. */
  function LowerAscii(c: char): char {
    if 'A' <= c <= 'Z' then (c as int - 'A' as int + 'a' as int) as char else c
  }

  function LowerAsciiString(s: string): (r: string)
    ensures |r| == |s|
  {
    if s == [] then [] else [LowerAscii(s[0])] + LowerAsciiString(s[1..])
  }

  /** A string of whole hex-digit pairs and nothing else. */
  predicate IsHexText(s: string) {
    |s| % 2 == 0 && forall i :: 0 <= i < |s| ==> IsHexDigit(s[i])
  }

  /** The ASCII whitespace `bytes.fromhex` skips between two digit pairs. */
  predicate IsAsciiSpace(c: char) {
    c == ' ' || c == '\t' || c == '\n' || c == '\r' || c == '\U{B}' || c == '\U{C}'
  }

  // ---------------------------------------------------------------------------
  // bytes.fromhex and bytes.hex

  /** `bytes.fromhex(s)`: whitespace between pairs is skipped; anything else
      must come as two hex digits, or the call raises ValueError. */
  function FromHex(s: string): (r: Result<seq<byte>, PyError>)
    ensures r.Err? ==> r.error == ValueError
    ensures r.Ok? ==> 2 * |r.value| <= |s|
    decreases |s|
  {
    if s == [] then Ok([])
    else if IsAsciiSpace(s[0]) then FromHex(s[1..])
    else if |s| < 2 || !IsHexDigit(s[0]) || !IsHexDigit(s[1]) then Err(ValueError)
    else
      match FromHex(s[2..])
      case Ok(rest) => Ok([HexDigitValue(s[0]) * 16 + HexDigitValue(s[1])] + rest)
      case Err(e) => Err(e)
  }

  /** `bytes.hex()` of one byte: two lower-case digits. */
  function HexByte(b: byte): (s: string)
    ensures |s| == 2 && IsHexText(s)
    ensures HexDigitValue(s[0]) * 16 + HexDigitValue(s[1]) == b
  {
    [LowerHexDigit(b / 16), LowerHexDigit(b % 16)]
  }

  /** `bytes.hex()`. */
  function ToHex(bs: seq<byte>): (s: string)
    ensures |s| == 2 * |bs| && IsHexText(s)
  {
    if bs == [] then [] else HexByte(bs[0]) + ToHex(bs[1..])
  }

  /** Reading back what `bytes.hex()` wrote gives the same bytes. */
  lemma {:induction false} FromHexToHex(bs: seq<byte>)
    ensures FromHex(ToHex(bs)) == Ok(bs)
  {
    if bs != [] {
      var h, s := HexByte(bs[0]), ToHex(bs);
      assert s == h + ToHex(bs[1..]);
      assert s[0] == h[0] && s[1] == h[1] && s[2..] == ToHex(bs[1..]);
      assert !IsAsciiSpace(h[0]);
      FromHexToHex(bs[1..]);
      assert [bs[0]] + bs[1..] == bs;
    }
  }

  /** A text of hex pairs decodes to half as many bytes, and writing those bytes
      back gives the text with its letters in lower case. */
  lemma {:induction false} FromHexOfHexText(s: string)
    requires IsHexText(s)
    ensures FromHex(s).Ok? && 2 * |FromHex(s).value| == |s|
    ensures ToHex(FromHex(s).value) == LowerAsciiString(s)
    decreases |s|
  {
    HexTextDecodes(s);
    if s != [] {
      var t := s[2..];
      HexTextTail(s);
      FromHexOfHexText(t);
      FromHexFront(s);
      var b := HexDigitValue(s[0]) * 16 + HexDigitValue(s[1]);
      var rest := FromHex(t).value;
      assert FromHex(s).value == [b] + rest;
      HexByteOfPair(s[0], s[1]);
      RoundTripStep(s, b, rest);
    }
  }

  /** One pair of the round trip: a byte written as the pair's lower-case
      form, in front of the rest's round trip. */
  lemma RoundTripStep(s: string, b: byte, rest: seq<byte>)
    requires |s| >= 2 && HexByte(b) == [LowerAscii(s[0]), LowerAscii(s[1])]
    requires ToHex(rest) == LowerAsciiString(s[2..])
    ensures ToHex([b] + rest) == LowerAsciiString(s)
  {
    ToHexCons(b, rest);
    LowerAsciiPair(s);
  }

  lemma {:induction false} HexTextDecodes(s: string)
    requires IsHexText(s)
    ensures FromHex(s).Ok? && 2 * |FromHex(s).value| == |s|
    decreases |s|
  {
    if s != [] {
      HexTextTail(s);
      HexTextDecodes(s[2..]);
      FromHexFront(s);
    }
  }

  /** The first step of `bytes.fromhex` on a text that starts with a pair. */
  lemma FromHexFront(s: string)
    requires |s| >= 2 && IsHexDigit(s[0]) && IsHexDigit(s[1])
    ensures FromHex(s).Ok? == FromHex(s[2..]).Ok?
    ensures FromHex(s).Ok? ==>
      FromHex(s).value == [HexDigitValue(s[0]) * 16 + HexDigitValue(s[1])] + FromHex(s[2..]).value
  {
    assert !IsAsciiSpace(s[0]);
  }

  lemma HexTextTail(s: string)
    requires IsHexText(s) && s != []
    ensures |s| >= 2 && IsHexDigit(s[0]) && IsHexDigit(s[1]) && IsHexText(s[2..])
  {
    var t := s[2..];
    forall i | 0 <= i < |t| ensures IsHexDigit(t[i]) {
      assert t[i] == s[i + 2];
    }
  }

  lemma ToHexCons(b: byte, rest: seq<byte>)
    ensures ToHex([b] + rest) == HexByte(b) + ToHex(rest)
  {
    assert ([b] + rest)[0] == b && ([b] + rest)[1..] == rest;
  }

  lemma LowerAsciiPair(s: string)
    requires |s| >= 2
    ensures LowerAsciiString(s) == [LowerAscii(s[0]), LowerAscii(s[1])] + LowerAsciiString(s[2..])
  {
    var t, x := s[1..], LowerAsciiString(s[2..]);
    var a, b := LowerAscii(s[0]), LowerAscii(s[1]);
    assert t[1..] == s[2..] && t[0] == s[1];
    assert LowerAsciiString(t) == [b] + x;
    assert LowerAsciiString(s) == [a] + ([b] + x);
    ConsPair(a, b, x);
  }

  lemma ConsPair<T>(a: T, b: T, x: seq<T>)
    ensures [a] + ([b] + x) == [a, b] + x
  {
  }

  /** One digit pair, written back by `bytes.hex()`, is the pair in lower case. */
  lemma HexByteOfPair(hi: char, lo: char)
    requires IsHexDigit(hi) && IsHexDigit(lo)
    ensures HexByte(HexDigitValue(hi) * 16 + HexDigitValue(lo)) == [LowerAscii(hi), LowerAscii(lo)]
  {
    var b := HexDigitValue(hi) * 16 + HexDigitValue(lo);
    assert b / 16 == HexDigitValue(hi) && b % 16 == HexDigitValue(lo);
  }

  /** A hex-pair prefix decodes independently of what follows it. */
  lemma {:induction false} FromHexConcat(a: string, b: string)
    requires IsHexText(a)
    ensures FromHex(a).Ok?
    ensures FromHex(a + b) ==
      (match FromHex(b) case Ok(t) => Ok(FromHex(a).value + t) case Err(e) => Err(e))
    decreases |a|
  {
    if a != [] {
      HexTextTail(a);
      var ab := a + b;
      assert ab[0] == a[0] && ab[1] == a[1] && ab[2..] == a[2..] + b;
      FromHexConcat(a[2..], b);
      FromHexFront(a);
      FromHexFront(ab);
      match FromHex(b)
      case Ok(t) =>
        var head := HexDigitValue(a[0]) * 16 + HexDigitValue(a[1]);
        ConsAppend(head, FromHex(a[2..]).value, t);
      case Err(e) =>
    } else {
      assert a + b == b;
      if FromHex(b).Ok? {
        assert FromHex(a).value + FromHex(b).value == FromHex(b).value;
      }
    }
  }

  lemma ConsAppend<T>(h: T, x: seq<T>, t: seq<T>)
    ensures [h] + (x + t) == ([h] + x) + t
  {
  }

  /** One step of `bytes.fromhex` at offset k: a hex-digit pair there becomes
      one byte in front of what the rest decodes to. */
  lemma FromHexAt(s: string, k: nat)
    requires k + 2 <= |s| && IsHexDigit(s[k]) && IsHexDigit(s[k + 1])
    ensures FromHex(s[k..]).Ok? == FromHex(s[k + 2..]).Ok?
    ensures FromHex(s[k..]).Ok? ==>
      FromHex(s[k..]).value == [HexDigitValue(s[k]) * 16 + HexDigitValue(s[k + 1])] + FromHex(s[k + 2..]).value
    ensures k + 2 == |s| ==>
      FromHex(s[k..]) == Ok([HexDigitValue(s[k]) * 16 + HexDigitValue(s[k + 1])])
  {
    assert s[k..][2..] == s[k + 2..];
    if k + 2 == |s| {
      var b: byte := HexDigitValue(s[k]) * 16 + HexDigitValue(s[k + 1]);
      var none: seq<byte> := [];
      assert FromHex(s[k + 2..]) == Ok(none);
      assert [b] + none == [b];
    }
  }

  /** A successful decode of a text with a non-whitespace character yields at
      least one byte. */
  lemma {:induction false} FromHexNonEmpty(s: string, i: nat)
    requires i < |s| && !IsAsciiSpace(s[i])
    ensures FromHex(s).Ok? ==> |FromHex(s).value| > 0
    decreases |s|
  {
    if IsAsciiSpace(s[0]) {
      FromHexNonEmpty(s[1..], i - 1);
    }
  }

  /** Any character that is neither a hex digit nor skippable whitespace makes
      `bytes.fromhex` raise. */
  lemma {:induction false} FromHexRejects(s: string, i: nat)
    requires i < |s| && !IsHexDigit(s[i]) && !IsAsciiSpace(s[i])
    ensures FromHex(s) == Err(ValueError)
    decreases |s|
  {
    if IsAsciiSpace(s[0]) {
      FromHexRejects(s[1..], i - 1);
    } else if |s| >= 2 && IsHexDigit(s[0]) && IsHexDigit(s[1]) {
      FromHexRejects(s[2..], i - 2);
    }
  }

  // ---------------------------------------------------------------------------
  // repr, strip and slicing of str

  /** `repr(chr(n))` for an ASCII code point: in double quotes for the single
      quote itself, otherwise the body between single quotes. */
  function ReprChr(n: int): (r: string)
    requires 0 <= n < 128
    ensures 3 <= |r| <= 6
  {
    if n == 39 then "\"'\"" else "'" + ReprBody(n) + "'"
  }

  /** What `repr` writes between the quotes: backslash, tab, newline and
      carriage return get their short escapes; the other control characters
      and DEL a `\xhh` escape; printable characters stand for themselves. */
  function ReprBody(n: int): (r: string)
    requires 0 <= n < 128 && n != 39
    ensures 1 <= |r| <= 4 && r[0] != '\'' && r[|r| - 1] != '\''
  {
    if n == 92 then "\\\\"
    else if n == 9 then "\\t"
    else if n == 10 then "\\n"
    else if n == 13 then "\\r"
    else if n < 32 || n == 127 then "\\x" + HexByte(n)
    else [n as char]
  }

  /** Stripping single quotes from a quoted body that neither starts nor ends
      with one gives the body back. */
  lemma StripQuoted(body: string)
    requires body != [] && body[0] != '\'' && body[|body| - 1] != '\''
    ensures Strip("'" + body + "'", '\'') == body
  {
    var q := '\'';
    var bq := body + [q];
    assert "'" + body + "'" == [q] + bq;
    StripLeadingOne(bq, q);
    StripTrailingOne(body, q);
  }

  lemma StripLeadingOne(s: string, c: char)
    requires s != [] && s[0] != c
    ensures StripLeading([c] + s, c) == s
  {
    assert ([c] + s)[1..] == s;
  }

  lemma StripTrailingOne(s: string, c: char)
    requires s != [] && s[|s| - 1] != c
    ensures StripTrailing(s + [c], c) == s
  {
    assert (s + [c])[..|s|] == s;
  }

  function StripLeading(s: string, c: char): (r: string)
    ensures |r| <= |s| && r == s[|s| - |r|..]
    ensures r == [] || r[0] != c
  {
    if s != [] && s[0] == c then StripLeading(s[1..], c) else s
  }

  function StripTrailing(s: string, c: char): (r: string)
    ensures |r| <= |s| && r == s[..|r|]
    ensures r == [] || r[|r| - 1] != c
  {
    if s != [] && s[|s| - 1] == c then StripTrailing(s[..|s| - 1], c) else s
  }

  /** `s.strip(c)` for a one-character argument. */
  function Strip(s: string, c: char): (r: string)
    ensures |r| <= |s|
    ensures r == [] || (r[0] != c && r[|r| - 1] != c)
  {
    StripTrailing(StripLeading(s, c), c)
  }

  /** `r` is the part of `s` from `a` on that is left when only copies of `c`
      are cut from both ends. */
  predicate StrippedInfix(s: string, c: char, r: string, a: nat) {
    && a + |r| <= |s| && r == s[a..a + |r|]
    && (forall i :: 0 <= i < a ==> s[i] == c)
    && (forall i :: a + |r| <= i < |s| ==> s[i] == c)
  }

  lemma {:induction false} StripLeadingCutsOnly(s: string, c: char)
    ensures forall i :: 0 <= i < |s| - |StripLeading(s, c)| ==> s[i] == c
  {
    if s != [] && s[0] == c {
      StripLeadingCutsOnly(s[1..], c);
    }
  }

  lemma {:induction false} StripTrailingCutsOnly(s: string, c: char)
    ensures forall i :: |StripTrailing(s, c)| <= i < |s| ==> s[i] == c
  {
    if s != [] && s[|s| - 1] == c {
      StripTrailingCutsOnly(s[..|s| - 1], c);
    }
  }

  /** What `strip` leaves is an infix of `s`, and everything cut from either
      end is a `c`. */
  lemma StripInfix(s: string, c: char)
    ensures exists a: nat :: StrippedInfix(s, c, Strip(s, c), a)
  {
    var l := StripLeading(s, c);
    var r := StripTrailing(l, c);
    var a := |s| - |l|;
    StripLeadingCutsOnly(s, c);
    StripTrailingCutsOnly(l, c);
    assert r == s[a..a + |r|];
    forall i | a + |r| <= i < |s| ensures s[i] == c {
      assert s[i] == l[i - a];
    }
    assert Strip(s, c) == r && StrippedInfix(s, c, r, a);
  }

  /** Python slicing `s[k:]`, which yields "" past the end instead of failing. */
  function SliceFrom(s: string, k: nat): string
  {
    if k <= |s| then s[k..] else ""
  }

  /** Python slicing `s[:k]`, which yields all of `s` past the end. */
  function SliceTo(s: string, k: nat): string
  {
    if k <= |s| then s[..k] else s
  }

  /**
   * Python's `s[:k] + s[k:] == s` for every `k`: the two slices split the
   * string, the head holding the first `min(k, len(s))` characters.
   */
  lemma SliceSplit(s: string, k: nat)
    ensures SliceTo(s, k) + SliceFrom(s, k) == s
    ensures |SliceTo(s, k)| == if k <= |s| then k else |s|
    ensures |SliceFrom(s, k)| == |s| - |SliceTo(s, k)|
  {
    if k <= |s| {
      assert s[..k] + s[k..] == s;
    }
  }

  // ---------------------------------------------------------------------------
  // str(int)

  function DecimalDigit(d: nat): (c: char)
    requires d < 10
    ensures '0' <= c <= '9'
  {
    ('0' as int + d) as char
  }

  function NatToDecimal(n: nat): (s: string)
    ensures |s| >= 1 && forall i :: 0 <= i < |s| ==> '0' <= s[i] <= '9'
    ensures s[0] == '0' ==> n == 0
  {
    if n < 10 then [DecimalDigit(n)] else NatToDecimal(n / 10) + [DecimalDigit(n % 10)]
  }

  /** `str(n)`: a minus sign for negative numbers, then the decimal digits. */
  function IntToDecimal(n: int): (s: string)
    ensures |s| >= 1
    ensures n < 0 <==> s[0] == '-'
  {
    if n < 0 then "-" + NatToDecimal(-n) else NatToDecimal(n)
  }

  /** The value of a string of decimal digits, the partner of NatToDecimal. */
  function DecimalValue(s: string): nat
    requires AllDecimalDigits(s)
  {
    if s == [] then 0 else DecimalValue(s[..|s| - 1]) * 10 + (s[|s| - 1] as int - '0' as int)
  }

  predicate AllDecimalDigits(s: string) {
    forall i :: 0 <= i < |s| ==> '0' <= s[i] <= '9'
  }

  /** s is how `str` writes n: digits worth n, after a minus sign when n < 0. */
  predicate DecimalDenotes(s: string, n: int) {
    if n >= 0 then AllDecimalDigits(s) && DecimalValue(s) == n
    else |s| >= 1 && s[0] == '-' && AllDecimalDigits(s[1..]) && DecimalValue(s[1..]) == -n
  }

  /** Reading back the digits of `str(n)` gives n. */
  lemma {:induction false} DecimalRoundTrip(n: int)
    ensures DecimalDenotes(IntToDecimal(n), n)
  {
    var m := if n < 0 then -n else n;
    NatDecimalRoundTrip(m);
    if n < 0 {
      assert IntToDecimal(n)[1..] == NatToDecimal(m);
    }
  }

  lemma {:induction false} NatDecimalRoundTrip(n: nat)
    ensures DecimalValue(NatToDecimal(n)) == n
  {
    if n >= 10 {
      NatDecimalRoundTrip(n / 10);
      var s := NatToDecimal(n);
      assert s[..|s| - 1] == NatToDecimal(n / 10);
    }
  }
}
