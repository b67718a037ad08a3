/** The pieces of JavaScript's string/number conversions the colour codec relies on:
    whitespace trimming, `parseInt(s, 16)`, `Number(s)` on decimal numerals,
    `n.toString(16)`, `` `${n}` `` for non-negative integers, `split(',')` and the
    `/\(([^)]+)\)/` group match. */
module JsText {
  import opened Results

  // ---------------------------------------------------------------------------
  // Characters

  /** LineTerminator of ECMAScript section 12.3. */
  predicate IsLineTerminator(c: char) {
    c == '\n' || c == '\r' || c == '\U{2028}' || c == '\U{2029}'
  }

  /** StrWhiteSpaceChar: WhiteSpace (section 12.2) or LineTerminator; what
      `Number`, `parseInt` and `trim` skip. */
  predicate IsJsSpace(c: char) {
    || c == '\t' || c == '\U{000B}' || c == '\U{000C}' || c == ' '
    || c == '\U{00A0}' || c == '\U{FEFF}' || c == '\U{1680}'
    || ('\U{2000}' <= c <= '\U{200A}')
    || c == '\U{202F}' || c == '\U{205F}' || c == '\U{3000}'
    || IsLineTerminator(c)
  }

  predicate IsDecimalDigit(c: char) { '0' <= c <= '9' }

  predicate IsHexDigit(c: char) { '0' <= c <= '9' || 'a' <= c <= 'f' || 'A' <= c <= 'F' }

  function DigitValue(c: char): (d: nat)
    requires IsDecimalDigit(c)
    ensures d < 10
  {
    (c as int - '0' as int) as nat
  }

  function HexValue(c: char): (d: nat)
    requires IsHexDigit(c)
    ensures d < 16
  {
    if '0' <= c <= '9' then (c as int - '0' as int) as nat
    else if 'a' <= c <= 'f' then (c as int - 'a' as int + 10) as nat
    else (c as int - 'A' as int + 10) as nat
  }

  /** The lower-case digit `Number.prototype.toString(16)` writes for `d`. */
  function HexDigit(d: nat): (c: char)
    requires d < 16
    ensures IsHexDigit(c) && HexValue(c) == d
    ensures '0' <= c <= '9' || 'a' <= c <= 'f'
  {
    if d < 10 then ('0' as int + d) as char else ('a' as int + d - 10) as char
  }

  function DecimalDigit(d: nat): (c: char)
    requires d < 10
    ensures IsDecimalDigit(c) && DigitValue(c) == d
  {
    ('0' as int + d) as char
  }

  /** A hex digit written in lower case. */
  function LowerHex(c: char): (r: char)
    requires IsHexDigit(c)
    ensures IsHexDigit(r) && HexValue(r) == HexValue(c)
    ensures 'A' <= c <= 'F' ==> r == (c as int + 32) as char
    ensures !('A' <= c <= 'F') ==> r == c
  {
    HexDigit(HexValue(c))
  }

  function LowerHexString(s: string): (r: string)
    requires forall i :: 0 <= i < |s| ==> IsHexDigit(s[i])
    ensures |r| == |s| && forall i :: 0 <= i < |s| ==> r[i] == LowerHex(s[i])
  {
    if s == [] then [] else [LowerHex(s[0])] + LowerHexString(s[1..])
  }

  // ---------------------------------------------------------------------------
  // Trimming

  function TrimStart(s: string): (r: string)
    ensures |r| <= |s|
  {
    if s != [] && IsJsSpace(s[0]) then TrimStart(s[1..]) else s
  }

  function TrimEnd(s: string): (r: string)
    ensures |r| <= |s|
  {
    if s != [] && IsJsSpace(s[|s| - 1]) then TrimEnd(s[..|s| - 1]) else s
  }

  function Trim(s: string): string {
    TrimEnd(TrimStart(s))
  }

  // ---------------------------------------------------------------------------
  // Digit runs and their values

  /** Length of the longest prefix of `s` made of decimal digits. */
  function DecimalRun(s: string): (n: nat)
    ensures n <= |s|
    ensures forall i :: 0 <= i < n ==> IsDecimalDigit(s[i])
    ensures n < |s| ==> !IsDecimalDigit(s[n])
  {
    if s != [] && IsDecimalDigit(s[0]) then 1 + DecimalRun(s[1..]) else 0
  }

  /** Length of the longest prefix of `s` made of hex digits. */
  function HexRun(s: string): (n: nat)
    ensures n <= |s|
    ensures forall i :: 0 <= i < n ==> IsHexDigit(s[i])
    ensures n < |s| ==> !IsHexDigit(s[n])
  {
    if s != [] && IsHexDigit(s[0]) then 1 + HexRun(s[1..]) else 0
  }

  function DecimalValue(s: string): nat
    requires forall i :: 0 <= i < |s| ==> IsDecimalDigit(s[i])
  {
    if s == [] then 0 else DecimalValue(s[..|s| - 1]) * 10 + DigitValue(s[|s| - 1])
  }

  function HexDigitsValue(s: string): nat
    requires forall i :: 0 <= i < |s| ==> IsHexDigit(s[i])
  {
    if s == [] then 0 else HexDigitsValue(s[..|s| - 1]) * 16 + HexValue(s[|s| - 1])
  }

  function Pow10(n: nat): (p: nat)
    ensures p >= 1
  {
    if n == 0 then 1 else 10 * Pow10(n - 1)
  }

  // ---------------------------------------------------------------------------
  // parseInt(s, 16) and Number(s)

  /** `parseInt(s, 16)`: skip leading whitespace, an optional sign, an optional
      `0x`/`0X`, then read the longest run of hex digits; `None` is NaN (no digit). */
  function ParseIntHex(s: string): Option<int>
  {
    var t := TrimStart(s);
    var negative := t != [] && t[0] == '-';
    var u := if t != [] && (t[0] == '-' || t[0] == '+') then t[1..] else t;
    var w := if |u| >= 2 && u[0] == '0' && (u[1] == 'x' || u[1] == 'X') then u[2..] else u;
    var n := HexRun(w);
    if n == 0 then None
    else
      var magnitude := HexDigitsValue(w[..n]);
      Some(if negative then -(magnitude as int) else magnitude)
  }

  /** `Number(s)` for the decimal numerals the model accepts: surrounding
      whitespace, an optional sign, digits with an optional fraction. Blank text
      is 0, as in JavaScript. `None` stands for every other text (NaN or an
      exponent / hexadecimal / Infinity literal). */
  function ParseNumber(s: string): (r: Option<real>)
    ensures Trim(s) == [] ==> r == Some(0.0)
  {
    var t := Trim(s);
    if t == [] then Some(0.0)
    else
      var sign := if t[0] == '-' then -1.0 else 1.0;
      var body := if t[0] == '-' || t[0] == '+' then t[1..] else t;
      var i := DecimalRun(body);
      var rest := body[i..];
      if rest == [] then
        if i == 0 then None else Some(sign * DecimalValue(body[..i]) as real)
      else if rest[0] != '.' then None
      else
        var fraction := rest[1..];
        var j := DecimalRun(fraction);
        if j != |fraction| || i + j == 0 then None
        else
          Some(sign * (DecimalValue(body[..i]) as real
                       + DecimalValue(fraction) as real / Pow10(j) as real))
  }

  // ---------------------------------------------------------------------------
  // Printing

  /** `` `${n}` `` for a non-negative integer. */
  function NatToDecimal(n: nat): (s: string)
    ensures s != []
    ensures forall i :: 0 <= i < |s| ==> IsDecimalDigit(s[i])
  {
    if n < 10 then [DecimalDigit(n)] else NatToDecimal(n / 10) + [DecimalDigit(n % 10)]
  }

  /** `n.toString(16)` for a non-negative integer. */
  function NatToHex(n: nat): (s: string)
    ensures s != []
    ensures forall i :: 0 <= i < |s| ==> '0' <= s[i] <= '9' || 'a' <= s[i] <= 'f'
  {
    if n < 16 then [HexDigit(n)] else NatToHex(n / 16) + [HexDigit(n % 16)]
  }

  /** Two lower-case hex digits, zero padded. */
  function HexByte(x: nat): (s: string)
    requires x < 256
    ensures |s| == 2 && IsHexDigit(s[0]) && IsHexDigit(s[1])
  {
    [HexDigit(x / 16), HexDigit(x % 16)]
  }

  lemma {:induction false} DecimalRoundTrip(n: nat)
    ensures DecimalValue(NatToDecimal(n)) == n
  {
    var s := NatToDecimal(n);
    if n >= 10 {
      DecimalRoundTrip(n / 10);
      assert s[..|s| - 1] == NatToDecimal(n / 10);
    }
  }

  /** Reading back what `` `${n}` `` printed gives `n`. */
  lemma ParseNumberOfDecimal(n: nat)
    ensures ParseNumber(NatToDecimal(n)) == Some(n as real)
  {
    var s := NatToDecimal(n);
    assert Trim(s) == s by {
      NotSpace(s[0]);
      NotSpace(s[|s| - 1]);
    }
    assert DecimalRun(s) == |s| by { DecimalRunAll(s); }
    DecimalRoundTrip(n);
    assert s[..|s|] == s;
  }

  lemma NotSpace(c: char)
    requires IsHexDigit(c)
    ensures !IsJsSpace(c)
  {
  }

  lemma {:induction false} DecimalRunAll(s: string)
    requires forall i :: 0 <= i < |s| ==> IsDecimalDigit(s[i])
    ensures DecimalRun(s) == |s|
  {
    if s != [] { DecimalRunAll(s[1..]); }
  }

  /** `toString(16)` of a number of the form n·256 + x ends with x as two digits. */
  lemma HexAppendByte(n: nat, x: nat)
    requires n >= 1 && x < 256
    ensures NatToHex(n * 256 + x) == NatToHex(n) + HexByte(x)
  {
    var m := n * 256 + x;
    assert m / 16 == n * 16 + x / 16 && m % 16 == x % 16;
    assert (m / 16) / 16 == n && (m / 16) % 16 == x / 16;
  }

  /** `parseInt` of two hex digits is their base-16 value. */
  lemma ParseIntHexPair(s: string)
    requires |s| == 2 && IsHexDigit(s[0]) && IsHexDigit(s[1])
    ensures ParseIntHex(s) == Some(16 * HexValue(s[0]) + HexValue(s[1]))
  {
    assert TrimStart(s) == s by { NotSpace(s[0]); }
    assert s[0] != '-' && s[0] != '+' && s[1] != 'x' && s[1] != 'X';
    assert HexRun(s) == 2 by {
      assert |s[1..]| == 1 && s[1..][0] == s[1] && s[1..][1..] == [];
    }
    assert HexDigitsValue(s) == 16 * HexValue(s[0]) + HexValue(s[1]) by {
      var a := s[..|s| - 1];
      assert |a| == 1 && a[0] == s[0] && a[..0] == [];
      assert HexDigitsValue(a) == HexDigitsValue([]) * 16 + HexValue(s[0]);
      assert HexDigitsValue(s) == HexDigitsValue(a) * 16 + HexValue(s[1]);
    }
    assert s[..2] == s;
  }

  // ---------------------------------------------------------------------------
  // split(',') and the parenthesised group

  /** `s.split(',')`: at least one part, none containing a comma. */
  function SplitComma(s: string): (parts: seq<string>)
    ensures |parts| >= 1
    ensures forall i, k :: 0 <= i < |parts| && 0 <= k < |parts[i]| ==> parts[i][k] != ','
  {
    if s == [] then [[]]
    else if s[0] == ',' then [[]] + SplitComma(s[1..])
    else
      var rest := SplitComma(s[1..]);
      [[s[0]] + rest[0]] + rest[1..]
  }

  /** `parts.join(',')`. */
  function JoinComma(parts: seq<string>): string
    requires |parts| >= 1
  {
    if |parts| == 1 then parts[0] else parts[0] + "," + JoinComma(parts[1..])
  }

  /** Splitting at commas loses nothing: joining the parts gives the text back. */
  lemma {:induction false} SplitJoin(s: string)
    ensures JoinComma(SplitComma(s)) == s
  {
    if s != [] {
      SplitJoin(s[1..]);
      var rest := SplitComma(s[1..]);
      if s[0] != ',' && |rest| > 1 {
        assert JoinComma([[s[0]] + rest[0]] + rest[1..]) == [s[0]] + rest[0] + "," + JoinComma(rest[1..]) by {
          assert ([[s[0]] + rest[0]] + rest[1..])[1..] == rest[1..];
        }
      }
    }
  }

  /** Length of the longest prefix of `s` without a `)`. */
  function CloseRun(s: string): (n: nat)
    ensures n <= |s|
    ensures forall i :: 0 <= i < n ==> s[i] != ')'
    ensures n < |s| ==> s[n] == ')'
  {
    if s != [] && s[0] != ')' then 1 + CloseRun(s[1..]) else 0
  }

  /** Group 1 of the first match of `/\(([^)]+)\)/` in `s`, if any. */
  function ParenGroup(s: string): (r: Option<string>)
    ensures r.Some? ==> r.value != [] && forall i :: 0 <= i < |r.value| ==> r.value[i] != ')'
  {
    if s == [] then None
    else if s[0] == '(' && 0 < CloseRun(s[1..]) < |s| - 1 then Some(s[1..1 + CloseRun(s[1..])])
    else ParenGroup(s[1..])
  }

  /** The group matched in `p + "(" + body + ")" + q` is `body` when `p` has no
      parenthesis and `body` is non-empty and free of `)`. */
  lemma {:induction false} ParenGroupOf(p: string, body: string, q: string)
    requires forall i :: 0 <= i < |p| ==> p[i] != '('
    requires body != [] && forall i :: 0 <= i < |body| ==> body[i] != ')'
    ensures ParenGroup(p + "(" + body + ")" + q) == Some(body)
  {
    var s := p + "(" + body + ")" + q;
    if p == [] {
      var t := s[1..];
      assert t == body + (")" + q);
      assert CloseRun(t) == |body| by { CloseRunOf(body, ")" + q); }
      assert s[1..1 + |body|] == body;
    } else {
      assert s[1..] == p[1..] + "(" + body + ")" + q;
      ParenGroupOf(p[1..], body, q);
    }
  }

  lemma {:induction false} CloseRunOf(body: string, rest: string)
    requires forall i :: 0 <= i < |body| ==> body[i] != ')'
    requires rest != [] && rest[0] == ')'
    ensures CloseRun(body + rest) == |body|
  {
    if body != [] {
      assert (body + rest)[1..] == body[1..] + rest;
      CloseRunOf(body[1..], rest);
    }
  }
}
