/** The JavaScript string built-ins the pages rely on: `trim`, `toLowerCase`,
    `localeCompare` (as an ordering) and the global `parseInt`. */
module Text {
  import opened Wrappers

  /** The WhiteSpace and LineTerminator code points of ECMA-262 (sections 12.2 and 12.3),
      the characters that `trim` removes and `parseInt` skips. */
  predicate IsSpace(c: char) {
    var n := c as int;
    (0x09 <= n <= 0x0D) || n == 0x20 || n == 0xA0 || n == 0x1680 ||
    (0x2000 <= n <= 0x200A) || n == 0x2028 || n == 0x2029 || n == 0x202F ||
    n == 0x205F || n == 0x3000 || n == 0xFEFF
  }

  predicate IsBlank(s: string) {
    forall i :: 0 <= i < |s| ==> IsSpace(s[i])
  }

  /** `s` with its leading white space removed. */
  function TrimStart(s: string): (r: string)
    ensures |r| <= |s| && r == s[|s| - |r|..]
    ensures IsBlank(s[..|s| - |r|])
    ensures r == [] || !IsSpace(r[0])
  {
    if |s| > 0 && IsSpace(s[0]) then
      var r := TrimStart(s[1..]);
      assert s[..|s| - |r|] == [s[0]] + s[1..][..|s| - 1 - |r|];
      r
    else s
  }

  /** `s` with its trailing white space removed. */
  function TrimEnd(s: string): (r: string)
    ensures |r| <= |s| && r == s[..|r|]
    ensures IsBlank(s[|r|..])
    ensures r == [] || !IsSpace(r[|r| - 1])
  {
    if |s| > 0 && IsSpace(s[|s| - 1]) then
      var r := TrimEnd(s[..|s| - 1]);
      assert s[|r|..] == s[..|s| - 1][|r|..] + [s[|s| - 1]];
      r
    else s
  }

  /** `String.prototype.trim`: the slice of `s` left once white space is removed from both ends. */
  function Trim(s: string): (r: string)
    ensures r == [] <==> IsBlank(s)
    ensures r != [] ==> !IsSpace(r[0]) && !IsSpace(r[|r| - 1])
  {
    var t := TrimStart(s);
    TrimStartBlank(s);
    TrimEndBlank(t);
    TrimEnd(t)
  }

  lemma TrimStartBlank(s: string)
    ensures TrimStart(s) == [] <==> IsBlank(s)
  {
    var t := TrimStart(s);
    if t == [] {
      assert s[..|s|] == s;
    } else {
      assert s[|s| - |t|] == t[0];
    }
  }

  lemma TrimEndBlank(s: string)
    ensures TrimEnd(s) == [] <==> IsBlank(s)
  {
    var t := TrimEnd(s);
    if t == [] {
      assert s[0..] == s;
    } else {
      assert s[|t| - 1] == t[|t| - 1];
    }
  }

  /** `r` sits at position `i` of `s` with only white space on either side of it. */
  ghost predicate BlankAround(s: string, r: string, i: int) {
    0 <= i <= |s| - |r| && r == s[i..i + |r|] && IsBlank(s[..i]) && IsBlank(s[i + |r|..])
  }

  /** What `trim` keeps is a contiguous slice of `s` with only white space on either side of it. */
  lemma TrimIsSlice(s: string)
    ensures exists i :: BlankAround(s, Trim(s), i)
  {
    var t := TrimStart(s);
    var r := TrimEnd(t);
    var i := |s| - |t|;
    assert t == s[i..] && IsBlank(s[..i]);
    assert r == t[..|r|] && IsBlank(t[|r|..]);
    assert r == s[i..i + |r|] by {
      assert t[..|r|] == s[i..i + |r|];
    }
    assert IsBlank(s[i + |r|..]) by {
      assert s[i + |r|..] == t[|r|..];
    }
    assert Trim(s) == r;
    assert BlankAround(s, r, i);
  }

  /** Trimming a string that was already trimmed changes nothing. */
  lemma TrimIdempotent(s: string)
    ensures Trim(Trim(s)) == Trim(s)
  {
    var r := Trim(s);
    if r != [] {
      assert TrimStart(r) == r;
      assert TrimEnd(r) == r;
    }
  }

  /** `toLowerCase` on one character; only the ASCII letters are folded. */
  function LowerChar(c: char): char {
    if 'A' <= c <= 'Z' then (c as int + 32) as char else c
  }

  /** `String.prototype.toLowerCase`, restricted to ASCII case folding. */
  function Lower(s: string): (r: string)
    ensures |r| == |s|
    ensures forall i :: 0 <= i < |s| ==> r[i] == LowerChar(s[i])
  {
    if s == [] then [] else [LowerChar(s[0])] + Lower(s[1..])
  }

  /** The case-insensitive title comparison `a.toLowerCase() === b.toLowerCase()`. */
  predicate SameIgnoringCase(a: string, b: string) {
    Lower(a) == Lower(b)
  }

  /** Lower-casing is idempotent, so a lower-cased title matches itself ignoring case. */
  lemma LowerIdempotent(s: string)
    ensures Lower(Lower(s)) == Lower(s)
    ensures SameIgnoringCase(Lower(s), s)
  {
    assert forall i :: 0 <= i < |s| ==> LowerChar(LowerChar(s[i])) == LowerChar(s[i]);
  }

  /** The order used for `localeCompare` sorting: lexicographic by code point. */
  predicate StrLeq(a: string, b: string) {
    if a == [] then true
    else if b == [] then false
    else if a[0] != b[0] then a[0] < b[0]
    else StrLeq(a[1..], b[1..])
  }

  lemma {:induction false} StrLeqTotal(a: string, b: string)
    ensures StrLeq(a, b) || StrLeq(b, a)
  {
    if a != [] && b != [] && a[0] == b[0] {
      StrLeqTotal(a[1..], b[1..]);
    }
  }

  lemma {:induction false} StrLeqTrans(a: string, b: string, c: string)
    requires StrLeq(a, b) && StrLeq(b, c)
    ensures StrLeq(a, c)
  {
    if a != [] && b != [] && c != [] && a[0] == b[0] && b[0] == c[0] {
      StrLeqTrans(a[1..], b[1..], c[1..]);
    }
  }

  lemma {:induction false} StrLeqAntisym(a: string, b: string)
    requires StrLeq(a, b) && StrLeq(b, a)
    ensures a == b
  {
    if a != [] && b != [] {
      StrLeqAntisym(a[1..], b[1..]);
      assert a == [a[0]] + a[1..];
      assert b == [b[0]] + b[1..];
    }
  }

  // ---------------------------------------------------------------------------
  // parseInt (section 19.2.5 of ECMA-262, with an undefined radix)

  function DecimalDigit(c: char): Option<nat> {
    if '0' <= c <= '9' then Some(c as int - '0' as int) else None
  }

  function HexDigit(c: char): Option<nat> {
    if '0' <= c <= '9' then Some(c as int - '0' as int)
    else if 'a' <= c <= 'f' then Some(c as int - 'a' as int + 10)
    else if 'A' <= c <= 'F' then Some(c as int - 'A' as int + 10)
    else None
  }

  function Digit(c: char, hex: bool): Option<nat> {
    if hex then HexDigit(c) else DecimalDigit(c)
  }

  /** Length of the longest prefix of `s` made of digits of the radix. */
  function DigitRun(s: string, hex: bool): (n: nat)
    ensures n <= |s|
    ensures forall i :: 0 <= i < n ==> Digit(s[i], hex).Some?
    ensures n < |s| ==> Digit(s[n], hex).None?
  {
    if s == [] || Digit(s[0], hex).None? then 0 else 1 + DigitRun(s[1..], hex)
  }

  /** The mathematical value of a run of digits, most significant first. */
  function DigitsValue(s: string, hex: bool): nat {
    if s == [] then 0
    else DigitsValue(s[..|s| - 1], hex) * (if hex then 16 else 10) + Digit(s[|s| - 1], hex).GetOr(0)
  }

  /** The text after an optional sign. */
  function Unsigned(t: string): string {
    if |t| > 0 && (t[0] == '-' || t[0] == '+') then t[1..] else t
  }

  /** A `0x` or `0X` prefix selects radix 16. */
  predicate HexPrefixed(u: string) {
    |u| >= 2 && u[0] == '0' && (u[1] == 'x' || u[1] == 'X')
  }

  /** The text after the radix prefix. */
  function DigitsPart(u: string): string {
    if HexPrefixed(u) then u[2..] else u
  }

  /** The magnitude read from the unsigned text: the value of the longest run of digits of the
      radix, or `NaN` when that run is empty. */
  function ParseMagnitude(u: string): (r: Option<nat>)
    ensures r.None? <==> DigitRun(DigitsPart(u), HexPrefixed(u)) == 0
  {
    var hex := HexPrefixed(u);
    var body := DigitsPart(u);
    var n := DigitRun(body, hex);
    if n == 0 then None else Some(DigitsValue(body[..n], hex))
  }

  /** `parseInt(s)`: `None` stands for `NaN`. Leading white space is skipped, then an optional
      sign and an optional `0x` prefix; the longest run of digits that follows is read, and
      without one the result is `NaN`. */
  function ParseInt(s: string): (r: Option<int>)
    ensures r.None? <==>
      DigitRun(DigitsPart(Unsigned(TrimStart(s))), HexPrefixed(Unsigned(TrimStart(s)))) == 0
    ensures r.Some? && (TrimStart(s) == [] || TrimStart(s)[0] != '-') ==> r.value >= 0
  {
    ReadSigned(TrimStart(s))
  }

  /** The number read from text without leading white space: the magnitude, negated after a
      minus sign. */
  function ReadSigned(t: string): (r: Option<int>)
    ensures r.None? <==> ParseMagnitude(Unsigned(t)).None?
    ensures r.Some? && (t == [] || t[0] != '-') ==> r.value >= 0
    ensures r.Some? && t != [] && t[0] == '-' ==> r.value <= 0
  {
    match ParseMagnitude(Unsigned(t))
    case None => None
    case Some(m) => if |t| > 0 && t[0] == '-' then Some(-(m as int)) else Some(m as int)
  }

  /** The decimal spelling of a natural number, as `String(k)` writes it. */
  function Decimal(k: nat): (s: string)
    ensures |s| >= 1
    ensures forall i :: 0 <= i < |s| ==> '0' <= s[i] <= '9'
    ensures |s| > 1 ==> s[0] != '0'
  {
    var d := ['0' + ((k % 10) as char)];
    if k < 10 then d else Decimal(k / 10) + d
  }

  lemma {:induction false} DecimalValue(k: nat)
    ensures DigitRun(Decimal(k), false) == |Decimal(k)|
    ensures DigitsValue(Decimal(k), false) == k
  {
    var s := Decimal(k);
    if k >= 10 {
      DecimalValue(k / 10);
      assert s[..|s| - 1] == Decimal(k / 10);
    }
  }

  /** The magnitude of a decimal spelling is the number it spells. */
  lemma MagnitudeOfDecimal(k: nat)
    ensures ParseMagnitude(Decimal(k)) == Some(k)
  {
    var s := Decimal(k);
    DecimalValue(k);
    assert |s| >= 2 ==> '0' <= s[1] <= '9';
    assert !HexPrefixed(s);
    assert DigitsPart(s) == s;
    assert s[..|s|] == s;
  }

  /** Text that starts with a digit is read without skipping or sign. */
  lemma ParseIntUnsigned(s: string)
    requires |s| > 0 && '0' <= s[0] <= '9'
    ensures ParseInt(s) == ReadSigned(s)
    ensures ReadSigned(s) == if ParseMagnitude(s).None? then None else Some(ParseMagnitude(s).value as int)
  {
    assert !IsSpace(s[0]);
    assert TrimStart(s) == s;
    assert Unsigned(s) == s;
  }

  /** `parseInt` reads back what `String` writes for a non-negative integer. */
  lemma ParseIntDecimal(k: nat)
    ensures ParseInt(Decimal(k)) == Some(k)
  {
    var s := Decimal(k);
    assert |s| > 0 && '0' <= s[0] <= '9' && ParseMagnitude(s) == Some(k) by {
      MagnitudeOfDecimal(k);
    }
    ParseIntUnsigned(s);
  }

}
