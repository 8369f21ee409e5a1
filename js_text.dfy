/** The JavaScript string built-ins the dashboard relies on: `trim`,
    `toLowerCase`, `includes` and the global `parseInt` (with no radix). */
module JsText {
  import opened Wrappers

  /** ECMAScript WhiteSpace and LineTerminator code points: what `trim`
      removes and what `parseInt` skips before the number. */
  predicate IsWhitespace(c: char) {
    if '!' <= c <= '~' then false
    else
      ('\t' <= c <= '\r') || c == ' ' || c == '\U{00A0}' || c == '\U{1680}' ||
      ('\U{2000}' <= c <= '\U{200A}') || c == '\U{2028}' || c == '\U{2029}' ||
      c == '\U{202F}' || c == '\U{205F}' || c == '\U{3000}' || c == '\U{FEFF}'
  }

  predicate AllWhitespace(s: string) {
    forall k :: 0 <= k < |s| ==> IsWhitespace(s[k])
  }

  /** `s` with its leading whitespace removed. */
  function TrimStart(s: string): (r: string)
    ensures |r| <= |s| && r == s[|s| - |r|..]
    ensures r == [] || !IsWhitespace(r[0])
    decreases |s|
  {
    if s != [] && IsWhitespace(s[0]) then TrimStart(s[1..]) else s
  }

  /** `s` with its trailing whitespace removed. */
  function TrimEnd(s: string): (r: string)
    ensures |r| <= |s| && r == s[..|r|]
    ensures r == [] || !IsWhitespace(r[|r| - 1])
    decreases |s|
  {
    if s != [] && IsWhitespace(s[|s| - 1]) then TrimEnd(s[..|s| - 1]) else s
  }

  /** What TrimStart removes is whitespace. */
  lemma {:induction false} TrimStartRemovesWhitespace(s: string)
    ensures AllWhitespace(s[..|s| - |TrimStart(s)|])
    decreases |s|
  {
    if s != [] && IsWhitespace(s[0]) {
      TrimStartRemovesWhitespace(s[1..]);
      var n := |s| - |TrimStart(s)|;
      assert forall k :: 1 <= k < n ==> s[k] == s[1..][k - 1];
    }
  }

  /** What TrimEnd removes is whitespace. */
  lemma {:induction false} TrimEndRemovesWhitespace(s: string)
    ensures AllWhitespace(s[|TrimEnd(s)|..])
    decreases |s|
  {
    if s != [] && IsWhitespace(s[|s| - 1]) {
      TrimEndRemovesWhitespace(s[..|s| - 1]);
      var n := |TrimEnd(s)|;
      assert forall k :: n <= k < |s| - 1 ==> s[k] == s[..|s| - 1][k];
    }
  }

  /** `String.prototype.trim`: `s` without whitespace on either side. */
  function Trim(s: string): (r: string)
    ensures |r| <= |s|
    ensures r == [] || (!IsWhitespace(r[0]) && !IsWhitespace(r[|r| - 1]))
  {
    TrimEnd(TrimStart(s))
  }

  /** The trim of `s` is a contiguous part of `s` with only whitespace around it. */
  lemma TrimIsSlice(s: string)
    ensures exists i :: SliceAt(s, Trim(s), i) && AllWhitespace(s[..i]) && AllWhitespace(s[i + |Trim(s)|..])
  {
    var t := TrimStart(s);
    var r := TrimEnd(t);
    var i := |s| - |t|;
    assert r == Trim(s);
    assert SliceAt(s, r, i) by {
      assert t == s[i..];
      assert r == t[..|r|];
    }
    assert AllWhitespace(s[..i]) by {
      TrimStartRemovesWhitespace(s);
    }
    assert AllWhitespace(s[i + |r|..]) by {
      assert s[i + |r|..] == t[|r|..];
      TrimEndRemovesWhitespace(t);
    }
  }

  /** `r` occurs in `s` starting at index `i`. */
  predicate SliceAt(s: string, r: string, i: int) {
    0 <= i && i + |r| <= |s| && s[i..i + |r|] == r
  }

  /** Trimming is idempotent: every trimmed text is its own trim. */
  lemma TrimIdempotent(s: string)
    ensures Trim(Trim(s)) == Trim(s)
  {
    var r := Trim(s);
    assert TrimStart(r) == r;
    assert TrimEnd(r) == r;
  }

  /** Text that neither starts nor ends with whitespace is its own trim. */
  lemma TrimUnchanged(s: string)
    requires s == [] || (!IsWhitespace(s[0]) && !IsWhitespace(s[|s| - 1]))
    ensures Trim(s) == s
  {
    assert TrimStart(s) == s;
  }

  /** Trimming never introduces a character: whatever is absent from `s` is
      absent from its trim. */
  lemma TrimKeepsOnlyCharsOf(s: string, c: char)
    requires c !in s
    ensures c !in Trim(s)
  {
    var r := Trim(s);
    TrimIsSlice(s);
    var i :| SliceAt(s, r, i) && AllWhitespace(s[..i]) && AllWhitespace(s[i + |r|..]);
  }

  /** Only text made entirely of whitespace trims to the empty string. */
  lemma TrimEmptyIffBlank(s: string)
    ensures Trim(s) == [] <==> AllWhitespace(s)
  {
    var r := Trim(s);
    TrimIsSlice(s);
    var i :| SliceAt(s, r, i) && AllWhitespace(s[..i]) && AllWhitespace(s[i + |r|..]);
    if r == [] {
      assert s == s[..i] + s[i..];
      assert forall k :: i <= k < |s| ==> s[k] == s[i..][k - i];
    }
  }

  function LowerChar(c: char): char {
    if 'A' <= c <= 'Z' then (c as int + 32) as char else c
  }

  /** `String.prototype.toLowerCase`, restricted to the ASCII letters. */
  function ToLower(s: string): (r: string)
    ensures |r| == |s|
    ensures forall k :: 0 <= k < |s| ==> r[k] == LowerChar(s[k])
  {
    seq(|s|, k requires 0 <= k < |s| => LowerChar(s[k]))
  }

  /** Lower-casing twice is lower-casing once. */
  lemma ToLowerIdempotent(s: string)
    ensures ToLower(ToLower(s)) == ToLower(s)
  {
    assert forall k :: 0 <= k < |s| ==> LowerChar(LowerChar(s[k])) == LowerChar(s[k]);
  }

  /** Text without upper-case ASCII letters is its own lower case. */
  lemma ToLowerUnchanged(s: string)
    requires forall k :: 0 <= k < |s| ==> !('A' <= s[k] <= 'Z')
    ensures ToLower(s) == s
  {
  }

  /** `String.prototype.includes`: `t` occurs somewhere in `s`. */
  predicate Contains(s: string, t: string) {
    exists i | 0 <= i <= |s| - |t| :: SliceAt(s, t, i)
  }

  /** The empty string occurs in every string, so an empty search matches everything. */
  lemma ContainsEmpty(s: string)
    ensures Contains(s, "")
  {
    assert SliceAt(s, "", 0);
  }

  // ---------------------------------------------------------------------
  // parseInt

  /** The value of `c` as a digit in base `radix` (10 or 16), if it is one. */
  function DigitValue(c: char, radix: nat): (d: Option<nat>)
    ensures d.Some? ==> d.value < radix
  {
    var v :=
      if '0' <= c <= '9' then Some(c as int - '0' as int)
      else if 'a' <= c <= 'z' then Some(c as int - 'a' as int + 10)
      else if 'A' <= c <= 'Z' then Some(c as int - 'A' as int + 10)
      else None;
    if v.Some? && v.value < radix then Some(v.value as nat) else None
  }

  /** Length of the longest prefix of `s` made of base-`radix` digits. */
  function DigitPrefixLength(s: string, radix: nat): (n: nat)
    ensures n <= |s|
    ensures forall k :: 0 <= k < n ==> DigitValue(s[k], radix).Some?
    ensures n < |s| ==> DigitValue(s[n], radix).None?
    decreases |s|
  {
    if s != [] && DigitValue(s[0], radix).Some? then 1 + DigitPrefixLength(s[1..], radix) else 0
  }

  /** The number written by the digits `s` in base `radix` (only ever applied
      to runs of digits). */
  function DigitsValue(s: string, radix: nat): nat
    decreases |s|
  {
    if s == [] then 0
    else
      var high: nat := DigitsValue(s[..|s| - 1], radix);
      var low: nat := DigitValue(s[|s| - 1], radix).GetOr(0);
      high * radix + low
  }

  /** The sign `parseInt` reads: a leading '-' makes the number negative. */
  predicate IsNegative(t: string) {
    t != [] && t[0] == '-'
  }

  /** `t` without its sign character, if it has one. */
  function Unsigned(t: string): string {
    if t != [] && (t[0] == '-' || t[0] == '+') then t[1..] else t
  }

  /** With no radix argument, parseInt reads base 16 after a "0x" or "0X" prefix. */
  predicate IsHex(u: string) {
    |u| >= 2 && u[0] == '0' && (u[1] == 'x' || u[1] == 'X')
  }

  /** The longest run of base-`radix` digits at the start of `d`, read as a
      number; `None` when `d` does not start with a digit. */
  function ReadDigits(d: string, radix: nat): Option<nat> {
    var n := DigitPrefixLength(d, radix);
    if n == 0 then None else Some(DigitsValue(d[..n], radix))
  }

  /** The global `parseInt(s)` with no radix argument: skip leading whitespace,
      read an optional sign, switch to base 16 after a `0x`/`0X` prefix, then
      read the longest run of digits. `None` stands for `NaN` (no digits). */
  function ParseInt(s: string): Option<int> {
    ParseSigned(TrimStart(s))
  }

  /** parseInt on text that starts where the number starts. */
  function ParseSigned(t: string): Option<int> {
    match Magnitude(Unsigned(t))
    case None => None
    case Some(m) => Some(if IsNegative(t) then -(m as int) else m as int)
  }

  /** The digits parseInt reads after the sign. */
  function Magnitude(u: string): Option<nat> {
    if IsHex(u) then ReadDigits(u[2..], 16) else ReadDigits(u, 10)
  }

  /** On text that does not start with whitespace, parseInt reads the sign and
      the digits at once. */
  lemma ParseIntAtNumber(t: string)
    requires t == [] || !IsWhitespace(t[0])
    ensures ParseInt(t) == ParseSigned(t)
  {
  }

  /** `parseInt(s) || 0`: the parsed integer, or 0 for `NaN` (and for 0 and -0). */
  function ParseIntOrZero(s: string): int {
    ParseInt(s).GetOr(0)
  }

  // ---------------------------------------------------------------------
  // Decimal rendering, the inverse of parseInt

  function DigitChar(d: nat): (c: char)
    requires d < 10
    ensures DigitValue(c, 10) == Some(d)
  {
    ('0' as int + d) as char
  }

  /** The decimal digits of `n`, most significant first, as `String(n)` writes them. */
  function NatString(n: nat): (s: string)
    ensures |s| > 0
    decreases n
  {
    if n < 10 then [DigitChar(n)] else NatString(n / 10) + [DigitChar(n % 10)]
  }

  /** `String(n)` writes only digits, without a leading zero, and their value is `n`. */
  lemma {:induction false} NatStringDigits(n: nat)
    ensures forall k :: 0 <= k < |NatString(n)| ==> DigitValue(NatString(n)[k], 10).Some?
    ensures DigitsValue(NatString(n), 10) == n
    ensures |NatString(n)| > 1 ==> NatString(n)[0] != '0'
    decreases n
  {
    if n >= 10 {
      NatStringDigits(n / 10);
      var s := NatString(n);
      assert s[..|s| - 1] == NatString(n / 10);
      assert s[0] == NatString(n / 10)[0];
    }
  }

  /** `String(n)` for an integer `n`. */
  function IntString(n: int): string {
    if n < 0 then ['-'] + NatString(-n) else NatString(n)
  }

  /** A string that starts with a decimal digit; used to phrase where
      parseInt stops. */
  predicate StartsWithDigit(s: string) {
    s != [] && DigitValue(s[0], 10).Some?
  }

  /** parseInt reads back what `String(n)` writes, and stops at the first
      character that is not a digit: `parseInt(String(n) + rest) == n`, unless
      `String(n)` is "0" and `rest` starts with `x` or `X`, when parseInt
      switches to hexadecimal. */
  lemma ParseIntOfIntString(n: int, rest: string)
    requires !StartsWithDigit(rest)
    requires n == 0 ==> rest == [] || (rest[0] != 'x' && rest[0] != 'X')
    ensures ParseInt(IntString(n) + rest) == Some(n)
  {
    var m: nat := if n < 0 then -n else n;
    var digits := NatString(m);
    if n < 0 {
      assert IntString(n) + rest == ['-'] + (digits + rest);
    } else {
      assert IntString(n) + rest == digits + rest;
    }
    ParseIntOfNatString(m, rest);
  }

  /** The unsigned half of the round trip, with and without a minus sign. */
  lemma ParseIntOfNatString(m: nat, rest: string)
    requires !StartsWithDigit(rest)
    requires m == 0 ==> rest == [] || (rest[0] != 'x' && rest[0] != 'X')
    ensures ParseInt(NatString(m) + rest) == Some(m as int)
    ensures ParseInt(['-'] + (NatString(m) + rest)) == Some(-(m as int))
  {
    var u := NatString(m) + rest;
    assert ReadDigits(u, 10) == Some(m) by {
      NatStringDigits(m);
      ReadDigitsOfDigits(NatString(m), rest, 10);
    }
    assert !IsHex(u) by {
      NotHexAfterDigits(m, rest);
    }
    ParseIntOfSignedDigits(u, m);
  }

  /** Text that starts with a decimal digit run of value `m` (and no hexadecimal
      prefix) parses to `m`, and to `-m` behind a minus sign. */
  lemma ParseIntOfSignedDigits(u: string, m: nat)
    requires ReadDigits(u, 10) == Some(m) && !IsHex(u)
    ensures ParseInt(u) == Some(m as int) && ParseInt(['-'] + u) == Some(-(m as int))
  {
    var t := ['-'] + u;
    SignedDigits(u, m);
    assert !IsWhitespace(u[0]) by {
      assert DigitValue(u[0], 10).Some?;
    }
    assert t[0] == '-';
    ParseIntAtNumber(u);
    ParseIntAtNumber(t);
  }

  /** The sign and digit reading of `u` and of `-u`. */
  lemma SignedDigits(u: string, m: nat)
    requires ReadDigits(u, 10) == Some(m) && !IsHex(u)
    ensures ParseSigned(u) == Some(m as int) && ParseSigned(['-'] + u) == Some(-(m as int))
  {
    assert Magnitude(u) == Some(m);
    assert u[0] != '-' && u[0] != '+' by {
      assert DigitValue(u[0], 10).Some?;
    }
    var t := ['-'] + u;
    assert t[0] == '-' && t[1..] == u;
  }

  /** `String(m) + rest` only looks like a hexadecimal prefix when `m` is 0
      and `rest` starts with `x` or `X`. */
  lemma NotHexAfterDigits(m: nat, rest: string)
    requires m == 0 ==> rest == [] || (rest[0] != 'x' && rest[0] != 'X')
    ensures !IsHex(NatString(m) + rest)
  {
    NatStringDigits(m);
    if m < 10 {
      assert NatString(m) == [DigitChar(m)];
    }
  }

  /** Reading the digits of `digits + rest` yields the value of `digits` when
      `rest` does not continue the run. */
  lemma ReadDigitsOfDigits(digits: string, rest: string, radix: nat)
    requires digits != []
    requires forall k :: 0 <= k < |digits| ==> DigitValue(digits[k], radix).Some?
    requires rest == [] || DigitValue(rest[0], radix).None?
    ensures ReadDigits(digits + rest, radix) == Some(DigitsValue(digits, radix))
  {
    DigitPrefixOfDigits(digits, rest, radix);
    assert (digits + rest)[..|digits|] == digits;
  }

  /** The digit run of `digits + rest` is exactly `digits` when `rest` does
      not continue it. */
  lemma {:induction false} DigitPrefixOfDigits(digits: string, rest: string, radix: nat)
    requires forall k :: 0 <= k < |digits| ==> DigitValue(digits[k], radix).Some?
    requires rest == [] || DigitValue(rest[0], radix).None?
    ensures DigitPrefixLength(digits + rest, radix) == |digits|
    decreases |digits|
  {
    if digits == [] {
      assert digits + rest == rest;
    } else {
      assert (digits + rest)[1..] == digits[1..] + rest;
      DigitPrefixOfDigits(digits[1..], rest, radix);
    }
  }

  /** Whitespace in front of the number does not change what parseInt reads. */
  lemma {:induction false} ParseIntSkipsWhitespace(ws: string, s: string)
    requires AllWhitespace(ws)
    ensures ParseInt(ws + s) == ParseInt(s)
  {
    TrimStartSkipsWhitespace(ws, s);
  }

  lemma {:induction false} TrimStartSkipsWhitespace(ws: string, s: string)
    requires AllWhitespace(ws)
    ensures TrimStart(ws + s) == TrimStart(s)
    decreases |ws|
  {
    if ws == [] {
      assert ws + s == s;
    } else {
      assert (ws + s)[1..] == ws[1..] + s;
      TrimStartSkipsWhitespace(ws[1..], s);
    }
  }

  /** parseInt gives `NaN` exactly when, after the whitespace and the sign,
      there is no decimal digit, or there is a "0x" prefix without a
      hexadecimal digit after it. */
  lemma ParseIntNaN(s: string)
    ensures var u := Unsigned(TrimStart(s));
      ParseInt(s) == None <==>
        !StartsWithDigit(u) || (IsHex(u) && (|u| == 2 || DigitValue(u[2], 16).None?))
  {
    var u := Unsigned(TrimStart(s));
    if IsHex(u) {
      assert StartsWithDigit(u);
      assert u[2..] == [] || u[2..][0] == u[2];
    } else if StartsWithDigit(u) {
      assert DigitPrefixLength(u, 10) > 0;
    }
  }

  /** `parseInt("N/A") || 0` is 0: a count cell holding text reads as none. */
  lemma ParseIntNotANumber(s: string)
    requires s == "N/A"
    ensures ParseInt(s) == None && ParseIntOrZero(s) == 0
  {
    assert s[0] == 'N';
    assert TrimStart(s) == s;
    ParseIntNaN(s);
  }

  /** A run of decimal digits reads as the number it writes. */
  lemma ParseIntDecimal(digits: string)
    requires digits != []
    requires forall k :: 0 <= k < |digits| ==> '0' <= digits[k] <= '9'
    ensures ParseInt(digits) == Some(DigitsValue(digits, 10) as int)
  {
    assert forall k :: 0 <= k < |digits| ==> DigitValue(digits[k], 10).Some?;
    assert ReadDigits(digits, 10) == Some(DigitsValue(digits, 10)) by {
      ReadDigitsOfDigits(digits, "", 10);
      assert digits + "" == digits;
    }
    assert !IsHex(digits) by {
      assert |digits| >= 2 ==> DigitValue(digits[1], 10).Some?;
    }
    ParseIntOfSignedDigits(digits, DigitsValue(digits, 10));
  }

  /** The "0x" prefix switches parseInt to base 16. */
  lemma ParseIntHexPrefix(digits: string)
    requires digits != []
    requires forall k :: 0 <= k < |digits| ==> DigitValue(digits[k], 16).Some?
    ensures ParseInt("0x" + digits) == Some(DigitsValue(digits, 16))
  {
    var u := "0x" + digits;
    assert u[0] == '0' && u[1] == 'x' && u[2..] == digits;
    assert TrimStart(u) == u by {
      assert !IsWhitespace(u[0]);
    }
    assert Unsigned(u) == u && IsHex(u) && !IsNegative(u);
    assert ReadDigits(u[2..], 16) == Some(DigitsValue(digits, 16)) by {
      ReadDigitsOfDigits(digits, "", 16);
      assert digits + "" == digits;
    }
  }

  /** For instance "0x1A" reads as 26, where a decimal reading would give 0. */
  lemma ParseIntHexExample()
    ensures ParseInt("0x1A") == Some(26)
  {
    assert DigitsValue("1A", 16) == 26 by {
      assert "1A"[..1] == "1" && "1"[..0] == "";
    }
    assert "0x1A" == "0x" + "1A";
    ParseIntHexPrefix("1A");
  }
}
