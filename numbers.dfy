/** Hexadecimal text and numbers: JavaScript's `parseInt(s, 16)` and the
    text the debugger gives for one memory word (`0x` and lower-case hex
    digits, as in the documented output `0x7ff623035ee0`). */
module Numbers {
  import opened Wrappers

  predicate IsHexDigit(c: char)
  {
    ('0' <= c <= '9') || ('a' <= c <= 'f') || ('A' <= c <= 'F')
  }

  function DigitValue(c: char): (d: nat)
    requires IsHexDigit(c)
    ensures d < 16
  {
    if '0' <= c <= '9' then c as int - '0' as int
    else if 'a' <= c <= 'f' then c as int - 'a' as int + 10
    else c as int - 'A' as int + 10
  }

  function HexDigit(d: nat): (c: char)
    requires d < 16
    ensures IsHexDigit(c) && DigitValue(c) == d
  {
    "0123456789abcdef"[d]
  }

  /** The value of a run of hex digits, most significant first. */
  function DigitsValue(digits: string): nat
    requires forall i :: 0 <= i < |digits| ==> IsHexDigit(digits[i])
  {
    if digits == [] then 0
    else 16 * DigitsValue(digits[..|digits| - 1]) + DigitValue(digits[|digits| - 1])
  }

  /** Lower-case hex digits of `n`, no leading zeros ("0" for zero). */
  function Hex(n: nat): (digits: string)
    ensures |digits| >= 1
    ensures forall i :: 0 <= i < |digits| ==> IsHexDigit(digits[i])
  {
    if n < 16 then [HexDigit(n)] else Hex(n / 16) + [HexDigit(n % 16)]
  }

  /** The debugger's text for one memory word. */
  function WordText(w: nat): (text: string)
    ensures |text| >= 3 && text[..2] == "0x"
    ensures forall i :: 2 <= i < |text| ==> IsHexDigit(text[i])
  {
    "0x" + Hex(w)
  }

  /** The longest prefix of `s` made of hex digits. */
  function HexRun(s: string): (run: string)
    ensures run <= s
    ensures forall i :: 0 <= i < |run| ==> IsHexDigit(run[i])
    ensures run == s || !IsHexDigit(s[|run|])
  {
    if s == [] || !IsHexDigit(s[0]) then [] else [s[0]] + HexRun(s[1..])
  }

  /** The white space `parseInt` skips before the number (the ASCII ones,
      no-break space, byte-order mark, line and paragraph separators). */
  predicate IsJsSpace(c: char)
  {
    c == ' ' || c == '\t' || c == '\n' || c == '\r' || c == '\U{000B}' || c == '\U{000C}'
    || c == '\U{00A0}' || c == '\U{FEFF}' || c == '\U{2028}' || c == '\U{2029}'
  }

  function SkipSpace(s: string): (r: string)
    ensures |r| <= |s| && r == s[|s| - |r|..]
    ensures r == [] || !IsJsSpace(r[0])
    ensures forall i :: 0 <= i < |s| - |r| ==> IsJsSpace(s[i])
  {
    if s != [] && IsJsSpace(s[0]) then SkipSpace(s[1..]) else s
  }

  /** `parseInt(s, 16)`: white space, an optional sign, an optional `0x` or
      `0X`, then the longest run of hex digits; `None` is NaN (no digit). */
  function ParseInt16(s: string): (r: Option<int>)
    ensures r.Some? && r.value < 0 ==> '-' in s
  {
    var t := SkipSpace(s);
    var digits := HexRun(WithoutRadix(WithoutSign(t)));
    if digits == [] then None
    else
      var magnitude: int := DigitsValue(digits);
      if |t| > 0 && t[0] == '-' then
        assert s[|s| - |t|] == t[0];
        Some(-magnitude)
      else Some(magnitude)
  }

  /** The text after an optional `-` or `+`. */
  function WithoutSign(t: string): string
  {
    if |t| > 0 && (t[0] == '-' || t[0] == '+') then t[1..] else t
  }

  /** The text after an optional `0x` or `0X`. */
  function WithoutRadix(u: string): string
  {
    if |u| >= 2 && u[0] == '0' && (u[1] == 'x' || u[1] == 'X') then u[2..] else u
  }

  /** Rendering a number in hex and reading it back gives the number. */
  lemma {:induction false} HexValue(n: nat)
    ensures DigitsValue(Hex(n)) == n
  {
    if n >= 16 {
      var h := Hex(n);
      assert h[..|h| - 1] == Hex(n / 16);
      HexValue(n / 16);
    }
  }

  lemma {:induction false} HexRunAll(s: string)
    requires forall i :: 0 <= i < |s| ==> IsHexDigit(s[i])
    ensures HexRun(s) == s
  {
    if s != [] {
      HexRunAll(s[1..]);
    }
  }

  /** `parseInt(text, 16)` of a word's debugger text is the word: the
      walk may use the word read from memory directly. */
  lemma ParseWordText(w: nat)
    ensures ParseInt16(WordText(w)) == Some(w)
  {
    var text, digits := WordText(w), Hex(w);
    assert text == "0x" + digits && text[0] == '0' && text[1] == 'x';
    assert SkipSpace(text) == text;
    assert text[2..] == digits;
    HexRunAll(digits);
    HexValue(w);
    assert HexRun(text[2..]) == digits;
  }

  /** `parseInt(token, 16)` of a bare run of hex digits, such as a frame
      address `000001d23f4e5060` with its backtick removed, is the digits'
      value, leading zeros included. */
  lemma ParseHexDigits(t: string)
    requires |t| >= 1 && forall i :: 0 <= i < |t| ==> IsHexDigit(t[i])
    ensures ParseInt16(t) == Some(DigitsValue(t))
  {
    NoSpaceBeforeDigit(t);
    NoSignOrRadix(t);
    HexRunAll(t);
  }

  /** No white space is skipped before a hex digit. */
  lemma NoSpaceBeforeDigit(t: string)
    requires |t| >= 1 && IsHexDigit(t[0])
    ensures SkipSpace(t) == t
  {
    assert !IsJsSpace(t[0]);
  }

  /** A run of hex digits has neither a sign nor a `0x` in front. */
  lemma NoSignOrRadix(t: string)
    requires |t| >= 1 && forall i :: 0 <= i < |t| ==> IsHexDigit(t[i])
    ensures WithoutRadix(WithoutSign(t)) == t
  {
    assert WithoutSign(t) == t;
    assert |t| >= 2 ==> IsHexDigit(t[1]);
  }

  /** Distinct words have distinct texts. */
  lemma WordTextInjective(a: nat, b: nat)
    ensures WordText(a) == WordText(b) <==> a == b
  {
    if WordText(a) == WordText(b) {
      ParseWordText(a);
      ParseWordText(b);
    }
  }
}
