/** Hexadecimal text as the ledmask attribute reads and writes it.

    Writing parses the text the way the driver's `sscanf(buf, "%x", &mask)`
    does on the inputs this model admits: leading white space is skipped, an
    optional `0x`/`0X` radix prefix is dropped, and the longest run of hex
    digits that follows is read as an unbounded natural number. When no digit
    follows, the conversion leaves the pre-set value 0. Reading prints a
    natural number as lower-case hex digits without padding, as `%x` does.
 */
module HexText {

  /** The kernel's `isspace`: tab to carriage return, the space, and the
      Latin-1 no-break space 0xA0. */
  predicate IsSpace(c: char)
  {
    c == ' ' || 9 <= c as int <= 13 || c as int == 0xa0
  }

  predicate IsHexDigit(c: char)
  {
    '0' <= c <= '9' || 'a' <= c <= 'f' || 'A' <= c <= 'F'
  }

  predicate IsLowerHexDigit(c: char)
  {
    '0' <= c <= '9' || 'a' <= c <= 'f'
  }

  predicate AllLowerHexDigits(s: string)
  {
    forall i :: 0 <= i < |s| ==> IsLowerHexDigit(s[i])
  }

  predicate AllHexDigits(s: string)
  {
    forall i :: 0 <= i < |s| ==> IsHexDigit(s[i])
  }

  function DigitValue(c: char): (v: nat)
    requires IsHexDigit(c)
    ensures v < 16
  {
    if '0' <= c <= '9' then c as int - '0' as int
    else if 'a' <= c <= 'f' then c as int - 'a' as int + 10
    else c as int - 'A' as int + 10
  }

  function DigitChar(v: nat): (c: char)
    requires v < 16
    ensures IsLowerHexDigit(c) && IsHexDigit(c)
    ensures DigitValue(c) == v
  {
    if v < 10 then (v + '0' as int) as char else (v - 10 + 'a' as int) as char
  }

  /** The number a string of hex digits denotes, most significant first. */
  function Value(d: string): nat
    requires AllHexDigits(d)
  {
    if d == [] then 0 else 16 * Value(d[..|d| - 1]) + DigitValue(d[|d| - 1])
  }

  lemma ValueAppend(d: string, c: char)
    requires AllHexDigits(d) && IsHexDigit(c)
    ensures AllHexDigits(d + [c])
    ensures Value(d + [c]) == 16 * Value(d) + DigitValue(c)
  {
    assert (d + [c])[..|d|] == d;
  }

  /** `%x` formatting: lower-case digits, no leading zero except for 0. */
  function Hex(n: nat): (s: string)
    ensures 0 < |s|
    ensures AllLowerHexDigits(s) && AllHexDigits(s)
    ensures 1 < |s| ==> s[0] != '0'
    ensures n < 16 <==> |s| == 1
    decreases n
  {
    if n < 16 then [DigitChar(n)] else Hex(n / 16) + [DigitChar(n % 16)]
  }

  /** A byte prints as one or two digits. */
  lemma HexOfByte(n: nat)
    requires n < 256
    ensures |Hex(n)| <= 2
  {
    if n >= 16 {
      assert Hex(n) == Hex(n / 16) + [DigitChar(n % 16)];
    }
  }

  /** Parsing what `%x` prints gives the number back. */
  lemma {:induction false} ValueOfHex(n: nat)
    ensures Value(Hex(n)) == n
    decreases n
  {
    if n >= 16 {
      ValueOfHex(n / 16);
      ValueAppend(Hex(n / 16), DigitChar(n % 16));
    }
  }

  /** The longest prefix of `t` made of hex digits. */
  function HexRun(t: string): (r: string)
    ensures |r| <= |t| && r == t[..|r|]
    ensures AllHexDigits(r)
    ensures |r| < |t| ==> !IsHexDigit(t[|r|])
  {
    if t == [] || !IsHexDigit(t[0]) then [] else [t[0]] + HexRun(t[1..])
  }

  /** Any maximal all-digit prefix is the one `HexRun` finds. */
  lemma {:induction false} HexRunUnique(t: string, k: nat)
    requires k <= |t| && AllHexDigits(t[..k])
    requires k < |t| ==> !IsHexDigit(t[k])
    ensures HexRun(t) == t[..k]
    decreases k
  {
    if k > 0 {
      assert t[..k][0] == t[0];
      assert t[1..][..k - 1] == t[..k][1..];
      HexRunUnique(t[1..], k - 1);
      assert t[..k] == [t[0]] + t[1..][..k - 1];
    }
  }

  /** `t` with its leading white space removed. */
  function SkipSpace(t: string): (r: string)
    ensures |r| <= |t| && r == t[|t| - |r|..]
    ensures forall i :: 0 <= i < |t| - |r| ==> IsSpace(t[i])
    ensures r != [] ==> !IsSpace(r[0])
  {
    if t != [] && IsSpace(t[0]) then
      var r := SkipSpace(t[1..]);
      assert t[1..][|t| - 1 - |r|..] == t[|t| - |r|..];
      r
    else t
  }

  /** `t` starts with the radix prefix "0x" or "0X". */
  predicate HasRadixPrefix(t: string)
  {
    2 <= |t| && t[0] == '0' && (t[1] == 'x' || t[1] == 'X')
  }

  function DropRadixPrefix(t: string): string
  {
    if HasRadixPrefix(t) then t[2..] else t
  }

  /** The number `sscanf(text, "%x", &mask)` reads, 0 when it reads none:
      an empty text, or one whose first character is neither white space
      nor a digit, reads nothing; a text that starts with a digit and not
      with "0x" or "0X" is read from its first character, leading zeros
      included. */
  function ScanHex(text: string): (v: nat)
    ensures text == [] ==> v == 0
    ensures text != [] && !IsSpace(text[0]) && !IsHexDigit(text[0]) ==> v == 0
    ensures text != [] && IsHexDigit(text[0]) && !HasRadixPrefix(text) ==> v == Value(HexRun(text))
  {
    if text != [] && !IsSpace(text[0]) && !HasRadixPrefix(text) then
      PlainStart(text);
      Value(HexRun(text))
    else
      Value(HexRun(DropRadixPrefix(SkipSpace(text))))
  }

  /** A text that starts with neither white space nor the radix prefix is
      read from its first character. */
  lemma PlainStart(text: string)
    requires text != [] && !IsSpace(text[0]) && !HasRadixPrefix(text)
    ensures DropRadixPrefix(SkipSpace(text)) == text
  {
  }

  /** Leading white space does not change what is read. */
  lemma {:induction false} ScanSkipsSpace(text: string)
    requires text != [] && IsSpace(text[0])
    ensures ScanHex(text) == ScanHex(text[1..])
  {
    assert SkipSpace(text) == SkipSpace(text[1..]);
  }

  /** Text without a single hex digit leaves the mask at 0. */
  lemma {:induction false} NoDigitsScansZero(text: string)
    requires forall i :: 0 <= i < |text| ==> !IsHexDigit(text[i])
    ensures ScanHex(text) == 0
  {
    var t := SkipSpace(text);
    assert t == text[|text| - |t|..];
    if t != [] {
      assert t[0] == text[|text| - |t|];
    }
    assert DropRadixPrefix(t) == t;
  }

  /** A digit run after the radix prefix, "0x" or "0X", and before a
      non-digit scans to its value. */
  lemma {:induction false} ScanPrefixed(x: char, h: string, tail: string)
    requires x == 'x' || x == 'X'
    requires AllHexDigits(h)
    requires tail == [] || !IsHexDigit(tail[0])
    ensures ScanHex(['0', x] + h + tail) == Value(h)
  {
    var text := ['0', x] + h + tail;
    assert text[0] == '0' && text[1] == x;
    assert SkipSpace(text) == text;
    assert text[2..] == h + tail;
    assert (h + tail)[..|h|] == h;
    HexRunUnique(h + tail, |h|);
  }

  /** So does a text of digits alone, leading zeros included. */
  lemma {:induction false} ScanWhole(h: string)
    requires 0 < |h| && AllHexDigits(h)
    ensures ScanHex(h) == Value(h)
  {
    if 2 <= |h| {
      assert IsHexDigit(h[1]);
    }
    assert !HasRadixPrefix(h);
    assert h[..|h|] == h;
    HexRunUnique(h, |h|);
  }

  /** What the attribute prints, after the prefix, scans back to itself. */
  lemma ScanPrinted(n: nat, tail: string)
    requires tail == [] || !IsHexDigit(tail[0])
    ensures ScanHex("0x" + Hex(n) + tail) == n
  {
    assert "0x" == ['0', 'x'];
    ScanPrefixed('x', Hex(n), tail);
    ValueOfHex(n);
  }

  /** The bare digits, without the prefix, scan back to the number too. */
  lemma ScanBare(n: nat)
    ensures ScanHex(Hex(n)) == n
  {
    ScanWhole(Hex(n));
    ValueOfHex(n);
  }

  /** The index of the first character of `text` that is not white space. */
  method SkipSpaces(text: string) returns (i: nat)
    ensures i <= |text| && text[i..] == SkipSpace(text)
  {
    i := 0;
    while i < |text| && IsSpace(text[i])
      invariant i <= |text|
      invariant SkipSpace(text) == SkipSpace(text[i..])
    {
      assert text[i..][1..] == text[i + 1..];
      i := i + 1;
    }
  }

  /** The value of the hex-digit run at the front of `t`, digit by digit. */
  method Accumulate(t: string) returns (v: nat)
    ensures v == Value(HexRun(t))
  {
    var i := 0;
    v := 0;
    while i < |t| && IsHexDigit(t[i])
      invariant i <= |t|
      invariant AllHexDigits(t[..i])
      invariant v == Value(t[..i])
    {
      ValueAppend(t[..i], t[i]);
      assert t[..i + 1] == t[..i] + [t[i]];
      v := 16 * v + DigitValue(t[i]);
      i := i + 1;
    }
    HexRunUnique(t, i);
  }

  /** The conversion as the C library performs it: one left-to-right pass
      that skips white space, a radix prefix, then accumulates digits. */
  method Scan(text: string) returns (v: nat)
    ensures v == ScanHex(text)
  {
    var i := SkipSpaces(text);
    var t := text[i..];
    if HasRadixPrefix(t) {
      t := t[2..];
    }
    assert t == DropRadixPrefix(SkipSpace(text));
    v := Accumulate(t);
  }
}
