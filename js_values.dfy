/** The JavaScript coercions the console's rules depend on: truthiness,
    `String.prototype.trim`/`includes`/`replace`, `String(n)` for integers,
    `parseInt`, `Number(...)` in loose comparisons and `Array.prototype.slice`.
    Number values held in records are integers; `Number(text)` may also give
    a fraction or an infinity (`Numeric`); `NaN` is a value of its own. */
module JsValues {
  import opened Wrappers

  /** A scalar JavaScript value as it occurs in form state and API records. */
  datatype JsValue = Undefined | Null | Bool(b: bool) | Num(n: int) | NaN | Str(s: string)

  /** JavaScript truthiness (`if (v)`, `!v`, `v || d`). */
  predicate Truthy(v: JsValue) {
    match v
    case Undefined => false
    case Null => false
    case Bool(b) => b
    case Num(n) => n != 0
    case NaN => false
    case Str(s) => s != ""
  }

  // ---------------------------------------------------------------------
  // Whitespace and trimming

  /** The WhiteSpace and LineTerminator code points that `trim` and
      `parseInt` skip (section 12.2 and 12.3 of ECMA-262). */
  predicate IsWhitespace(c: char) {
    c == '\t' || c == '\n' || c == '\U{000B}' || c == '\U{000C}' || c == '\r' || c == ' '
    || c == '\U{00A0}' || c == '\U{1680}' || ('\U{2000}' <= c <= '\U{200A}')
    || c == '\U{2028}' || c == '\U{2029}' || c == '\U{202F}' || c == '\U{205F}'
    || c == '\U{3000}' || c == '\U{FEFF}'
  }

  /** Every character of `s` is whitespace (the empty string included). */
  predicate IsBlank(s: string) {
    forall i :: 0 <= i < |s| ==> IsWhitespace(s[i])
  }

  /** End of the run of whitespace that starts at position `i`. */
  function SpaceEnd(s: string, i: nat): (k: nat)
    requires i <= |s|
    ensures i <= k <= |s|
    ensures forall j :: i <= j < k ==> IsWhitespace(s[j])
    ensures k < |s| ==> !IsWhitespace(s[k])
    decreases |s| - i
  {
    if i < |s| && IsWhitespace(s[i]) then SpaceEnd(s, i + 1) else i
  }

  /** Start of the run of whitespace that ends just before position `i`. */
  function SpaceStart(s: string, i: nat): (k: nat)
    requires i <= |s|
    ensures k <= i
    ensures forall j :: k <= j < i ==> IsWhitespace(s[j])
    ensures 0 < k ==> !IsWhitespace(s[k - 1])
  {
    if 0 < i && IsWhitespace(s[i - 1]) then SpaceStart(s, i - 1) else i
  }

  /** `s.trimStart()`, also the first step of `parseInt`. */
  function TrimStart(s: string): string {
    s[SpaceEnd(s, 0)..]
  }

  /** `s.trim()`. */
  function Trim(s: string): string {
    var t := TrimStart(s);
    t[..SpaceStart(t, |t|)]
  }

  /** `s.trim()` is empty exactly when `s` is blank, and otherwise starts
      and ends with a non-whitespace character. */
  lemma TrimEmptyIffBlank(s: string)
    ensures Trim(s) == "" <==> IsBlank(s)
    ensures Trim(s) != "" ==> !IsWhitespace(Trim(s)[0]) && !IsWhitespace(Trim(s)[|Trim(s)| - 1])
  {
    var k := SpaceEnd(s, 0);
    var t := s[k..];
    var j := SpaceStart(t, |t|);
    if k == |s| {
      assert IsBlank(s);
    } else {
      assert t[0] == s[k];
      assert j > 0;
      assert Trim(s)[0] == s[k];
      assert !IsBlank(s);
    }
  }

  // ---------------------------------------------------------------------
  // Substrings

  /** `pat` occurs in `s` at position `j`. */
  predicate OccursAt(s: string, pat: string, j: nat) {
    j + |pat| <= |s| && s[j..j + |pat|] == pat
  }

  function IndexFrom(s: string, pat: string, from: nat): (r: Option<nat>)
    requires from <= |s|
    ensures r.Some? ==> from <= r.value && OccursAt(s, pat, r.value)
    ensures r.Some? ==> forall j :: from <= j < r.value ==> !OccursAt(s, pat, j)
    ensures r.None? ==> forall j :: from <= j <= |s| ==> !OccursAt(s, pat, j)
    decreases |s| - from
  {
    if OccursAt(s, pat, from) then Some(from)
    else if from == |s| then None
    else IndexFrom(s, pat, from + 1)
  }

  /** `s.indexOf(pat)`: the first position where `pat` occurs. */
  function IndexOf(s: string, pat: string): (r: Option<nat>)
    ensures r.Some? ==> OccursAt(s, pat, r.value)
    ensures r.Some? ==> forall j :: 0 <= j < r.value ==> !OccursAt(s, pat, j)
    ensures r.None? ==> forall j :: 0 <= j <= |s| ==> !OccursAt(s, pat, j)
  {
    IndexFrom(s, pat, 0)
  }

  /** `s.includes(pat)` (case-sensitive). */
  predicate Includes(s: string, pat: string) {
    exists j: nat | j <= |s| :: OccursAt(s, pat, j)
  }

  /** `s.replace(pat, rep)` with a string pattern: only the first occurrence
      is replaced. */
  function ReplaceFirst(s: string, pat: string, rep: string): string {
    match IndexOf(s, pat)
    case None => s
    case Some(i) => s[..i] + rep + s[i + |pat|..]
  }

  /** Text that starts with `pat` loses exactly that leading `pat`. */
  lemma ReplaceLeading(pat: string, rest: string, rep: string)
    ensures ReplaceFirst(pat + rest, pat, rep) == rep + rest
  {
    var s := pat + rest;
    assert OccursAt(s, pat, 0);
    assert s[0 + |pat|..] == rest;
  }

  /** Text that does not contain `pat` is returned unchanged. */
  lemma ReplaceAbsent(s: string, pat: string, rep: string)
    requires !Includes(s, pat)
    ensures ReplaceFirst(s, pat, rep) == s
  {
  }

  /** Text lacking one of the characters of `pat` does not contain `pat`. */
  lemma MissingCharExcludes(s: string, pat: string, c: char)
    requires c in pat && c !in s
    ensures !Includes(s, pat)
  {
  }

  /** An occurrence of `pat` in `a + [c] + b`, where `c` is not a character
      of `pat`, lies wholly inside `a` or wholly inside `b`. */
  lemma SplitExcludes(a: string, c: char, b: string, pat: string)
    requires c !in pat && !Includes(a, pat) && !Includes(b, pat)
    ensures !Includes(a + [c] + b, pat)
  {
    var s := a + [c] + b;
    if j: nat :| j <= |s| && OccursAt(s, pat, j) {
      if j + |pat| <= |a| {
        assert a[j..j + |pat|] == s[j..j + |pat|];
        assert OccursAt(a, pat, j);
      } else if j > |a| {
        assert b[j - |a| - 1..j - |a| - 1 + |pat|] == s[j..j + |pat|];
        assert OccursAt(b, pat, j - |a| - 1);
      } else {
        OccursAtCovers(s, pat, j, |a|);
        assert false;
      }
    }
  }

  /** Every character that an occurrence of `pat` covers is a character
      of `pat`. */
  lemma OccursAtCovers(s: string, pat: string, j: nat, i: nat)
    requires OccursAt(s, pat, j) && j <= i < j + |pat|
    ensures s[i] in pat
  {
    assert s[i] == pat[i - j];
  }

  // ---------------------------------------------------------------------
  // Integers as decimal text: String(n) and parseInt

  /** Value of an alphanumeric digit character, 36 for anything else. */
  function Digit(c: char): nat {
    if '0' <= c <= '9' then c as int - '0' as int
    else if 'a' <= c <= 'z' then c as int - 'a' as int + 10
    else if 'A' <= c <= 'Z' then c as int - 'A' as int + 10
    else 36
  }

  function DigitChar(d: nat): (c: char)
    requires d < 10
    ensures Digit(c) == d && !IsWhitespace(c)
  {
    ('0' as int + d) as char
  }

  /** The shortest decimal numeral of a natural number. */
  function NatToDecimal(n: nat): (r: string)
    ensures |r| > 0 && forall i :: 0 <= i < |r| ==> Digit(r[i]) < 10 && !IsWhitespace(r[i])
  {
    if n < 10 then [DigitChar(n)] else NatToDecimal(n / 10) + [DigitChar(n % 10)]
  }

  /** `String(n)` / `n.toString()` for an integer. */
  function IntToString(n: int): string {
    if n < 0 then "-" + NatToDecimal(-n) else NatToDecimal(n)
  }

  /** `String(v)`. */
  function ToStr(v: JsValue): string {
    match v
    case Undefined => "undefined"
    case Null => "null"
    case Bool(b) => if b then "true" else "false"
    case Num(n) => IntToString(n)
    case NaN => "NaN"
    case Str(s) => s
  }

  /** End of the run of digits below `radix` that starts at position `i`. */
  function DigitEnd(s: string, i: nat, radix: nat): (k: nat)
    requires i <= |s|
    ensures i <= k <= |s|
    ensures forall j :: i <= j < k ==> Digit(s[j]) < radix
    ensures k < |s| ==> Digit(s[k]) >= radix
    decreases |s| - i
  {
    if i < |s| && Digit(s[i]) < radix then DigitEnd(s, i + 1, radix) else i
  }

  /** Positional value of a digit string. */
  function DigitsValue(z: string, radix: nat): nat {
    if z == [] then 0 else DigitsValue(z[..|z| - 1], radix) * radix + Digit(z[|z| - 1])
  }

  /** `parseInt(s, radix)`, with `radix == 0` standing for an absent radix
      (section 19.2.5 of ECMA-262): leading whitespace is skipped, one sign
      is read, a `0x` prefix selects base 16 when no other base is given, and
      the longest run of digits is read; no digit gives `NaN` (`None`). */
  function ParseInt(s: string, radix: nat): Option<int> {
    if radix != 0 && (radix < 2 || radix > 36) then None
    else ParseSigned(TrimStart(s), radix)
  }

  /** `parseInt` after the leading whitespace: one optional sign, then the
      magnitude. */
  function ParseSigned(t: string, radix: nat): Option<int> {
    if |t| > 0 && t[0] == '-' then Negate(ParseMagnitude(t[1..], radix))
    else if |t| > 0 && t[0] == '+' then ParseMagnitude(t[1..], radix)
    else ParseMagnitude(t, radix)
  }

  function Negate(r: Option<int>): Option<int> {
    match r
    case Some(m) => Some(-m)
    case None => None
  }

  /** The unsigned part of `parseInt`: optional `0x` prefix, then digits. */
  function ParseMagnitude(u: string, radix: nat): Option<int> {
    var hex := (radix == 0 || radix == 16) && |u| >= 2 && u[0] == '0' && (u[1] == 'x' || u[1] == 'X');
    var base := if hex then 16 else if radix == 0 then 10 else radix;
    var body := if hex then u[2..] else u;
    var k := DigitEnd(body, 0, base);
    if k == 0 then None else Some(DigitsValue(body[..k], base))
  }

  /** `parseInt(v, radix)` on any value: the value is first turned into text. */
  function ParseIntValue(v: JsValue, radix: nat): JsValue {
    match ParseInt(ToStr(v), radix)
    case Some(n) => Num(n)
    case None => NaN
  }

  lemma {:induction false} DecimalValue(n: nat)
    ensures DigitsValue(NatToDecimal(n), 10) == n
    decreases n
  {
    if n >= 10 {
      var z := NatToDecimal(n);
      assert z[..|z| - 1] == NatToDecimal(n / 10);
      DecimalValue(n / 10);
    }
  }

  lemma DigitPrefixAll(z: string, radix: nat)
    requires forall i :: 0 <= i < |z| ==> Digit(z[i]) < radix
    ensures DigitEnd(z, 0, radix) == |z|
  {
  }

  /** A run of decimal digits is read whole, in base 10. */
  lemma MagnitudeOfDigits(z: string, radix: nat)
    requires radix == 0 || radix == 10
    requires z != [] && forall i :: 0 <= i < |z| ==> Digit(z[i]) < 10
    ensures ParseMagnitude(z, radix) == Some(DigitsValue(z, 10))
  {
    assert |z| >= 2 ==> Digit(z[1]) < 10;
    DigitPrefixAll(z, 10);
    assert z[..|z|] == z;
  }

  /** The digits of a natural number read back in base 10. */
  lemma DecimalBody(m: nat, radix: nat)
    requires radix == 0 || radix == 10
    ensures ParseMagnitude(NatToDecimal(m), radix) == Some(m)
  {
    MagnitudeOfDigits(NatToDecimal(m), radix);
    DecimalValue(m);
  }

  /** Text that does not start with whitespace is left alone by `TrimStart`. */
  lemma TrimStartNoSpace(s: string)
    requires s != [] && !IsWhitespace(s[0])
    ensures TrimStart(s) == s
  {
  }

  /** Text that starts with a digit has no sign to read. */
  lemma SignedDigit(d: string, radix: nat)
    requires d != [] && Digit(d[0]) < 10
    ensures ParseSigned(d, radix) == ParseMagnitude(d, radix)
  {
  }

  /** `parseInt(String(n), 10)` and `parseInt(String(n))` give `n` back. */
  lemma ParseIntOfString(n: int, radix: nat)
    requires radix == 0 || radix == 10
    ensures ParseInt(IntToString(n), radix) == Some(n)
  {
    if n < 0 {
      ParseIntOfNegative(-n, radix);
    } else {
      ParseIntOfNatural(n, radix);
    }
  }

  lemma ParseIntOfNegative(m: nat, radix: nat)
    requires radix == 0 || radix == 10
    ensures ParseInt("-" + NatToDecimal(m), radix) == Negate(Some(m))
  {
    var d := NatToDecimal(m);
    var s := "-" + d;
    assert s[0] == '-' && s[1..] == d;
    MagnitudeOfDecimal(d, m, radix);
    ParseIntMinus(s, radix);
  }

  lemma MagnitudeOfDecimal(d: string, m: nat, radix: nat)
    requires radix == 0 || radix == 10
    requires d == NatToDecimal(m)
    ensures ParseMagnitude(d, radix) == Some(m)
  {
    DecimalBody(m, radix);
  }

  /** `parseInt` of text starting with a minus sign. */
  lemma ParseIntMinus(s: string, radix: nat)
    requires |s| > 0 && s[0] == '-' && (radix == 0 || 2 <= radix <= 36)
    ensures ParseInt(s, radix) == Negate(ParseMagnitude(s[1..], radix))
  {
    TrimStartNoSpace(s);
  }

  lemma ParseIntOfNatural(n: nat, radix: nat)
    requires radix == 0 || radix == 10
    ensures ParseInt(NatToDecimal(n), radix) == Some(n)
  {
    var s := NatToDecimal(n);
    assert Digit(s[0]) < 10;
    TrimStartNoSpace(s);
    DecimalBody(n, radix);
    SignedDigit(s, radix);
  }

  // ---------------------------------------------------------------------
  // Number(v) as used by the loose comparisons `<`, `<=`

  /** The value of a number as `Number(...)` produces it: a finite value,
      or one of the two infinities. `NaN` is `None` wherever it occurs. */
  datatype Numeric = Finite(r: real) | Infinite(negative: bool)

  /** `a <= b` on two numbers that are not `NaN`. */
  predicate NumAtMost(a: Numeric, b: Numeric) {
    if a.Infinite? then a.negative || (b.Infinite? && !b.negative)
    else if b.Infinite? then !b.negative
    else a.r <= b.r
  }

  function Pow10(k: nat): (p: nat)
    ensures p >= 1
  {
    if k == 0 then 1 else 10 * Pow10(k - 1)
  }

  /** `m * 10^e` for a digit string's value `m` and a decimal exponent `e`. */
  function Scale(m: nat, e: int): (r: real)
    ensures r >= 0.0
    ensures r == 0.0 <==> m == 0
  {
    if e >= 0 then (m * Pow10(e)) as real else m as real / Pow10(-e) as real
  }

  /** The optional sign and the digits after the `e` of an exponent part. */
  function SignedDigits(y: string): Option<int> {
    var negative := |y| > 0 && y[0] == '-';
    var d := if |y| > 0 && (y[0] == '-' || y[0] == '+') then y[1..] else y;
    var e: int := DigitsValue(d, 10);
    if d != [] && DigitEnd(d, 0, 10) == |d| then Some(if negative then -e else e)
    else None
  }

  /** What follows the digits of a decimal literal: nothing (exponent 0), or
      `e`/`E` and a signed exponent; anything else makes the text `NaN`. */
  function ExponentPart(x: string): Option<int> {
    if x == [] then Some(0)
    else if x[0] == 'e' || x[0] == 'E' then SignedDigits(x[1..])
    else None
  }

  /** End of the optional fraction (a point and digits) that may start at
      `i`; `i` itself when there is no point there. */
  function FractionEnd(u: string, i: nat): (j: nat)
    requires i <= |u|
    ensures i <= j <= |u|
    ensures j > i <==> i < |u| && u[i] == '.'
    ensures j > i ==> forall k :: i + 1 <= k < j ==> Digit(u[k]) < 10
  {
    if i < |u| && u[i] == '.' then DigitEnd(u, i + 1, 10) else i
  }

  /** StrUnsignedDecimalLiteral of section 7.1.4.1 of ECMA-262 (without
      `Infinity`): digits, an optional point with more digits, at least one
      digit in all, then an optional exponent part. */
  function UnsignedDecimal(u: string): Option<real> {
    var i := DigitEnd(u, 0, 10);
    var j := FractionEnd(u, i);
    var fraction := if j > i then u[i + 1..j] else "";
    if i == 0 && fraction == "" then None
    else match ExponentPart(u[j..])
      case Some(e) => Some(Scale(DigitsValue(u[..i] + fraction, 10), e - |fraction|))
      case None => None
  }

  /** The base selected by a `0x`, `0o` or `0b` prefix, 0 when there is none. */
  function PrefixBase(t: string): nat {
    if |t| < 2 || t[0] != '0' then 0
    else if t[1] == 'x' || t[1] == 'X' then 16
    else if t[1] == 'o' || t[1] == 'O' then 8
    else if t[1] == 'b' || t[1] == 'B' then 2
    else 0
  }

  /** `Number(s)` for text (section 7.1.4.1 of ECMA-262): surrounding
      whitespace is ignored. */
  function StringToNumber(s: string): Option<Numeric> {
    TrimmedToNumber(Trim(s))
  }

  /** `Number` of trimmed text: the empty text is 0; `Infinity` with an
      optional sign; an unsigned `0x`/`0o`/`0b` integer; or a signed decimal
      literal. Anything else is `NaN` (`None`). */
  function TrimmedToNumber(t: string): Option<Numeric> {
    if t == "" then Some(Finite(0.0))
    else if t == "Infinity" || t == "+Infinity" then Some(Infinite(false))
    else if t == "-Infinity" then Some(Infinite(true))
    else if PrefixBase(t) != 0 then
      var body := t[2..];
      if body != [] && DigitEnd(body, 0, PrefixBase(t)) == |body| then Some(Finite(DigitsValue(body, PrefixBase(t)) as real))
      else None
    else SignedDecimal(t)
  }

  /** A decimal literal after an optional sign. */
  function SignedDecimal(t: string): Option<Numeric>
    requires t != []
  {
    var negative := t[0] == '-';
    var u := if t[0] == '-' || t[0] == '+' then t[1..] else t;
    match UnsignedDecimal(u)
    case Some(r) => Some(Finite(if negative then -r else r))
    case None => None
  }

  /** `Number(v)`: `None` is `NaN`. */
  function ToNumber(v: JsValue): Option<Numeric> {
    match v
    case Undefined => None
    case Null => Some(Finite(0.0))
    case Bool(b) => Some(Finite(if b then 1.0 else 0.0))
    case Num(n) => Some(Finite(n as real))
    case NaN => None
    case Str(s) => StringToNumber(s)
  }

  /** `n <= v` for a number `n`: false whenever `v` converts to `NaN`. */
  predicate LooseAtMost(n: int, v: JsValue) {
    match ToNumber(v)
    case Some(m) => NumAtMost(Finite(n as real), m)
    case None => false
  }

  /** `v <= n` for a number `n`: false whenever `v` converts to `NaN`. */
  predicate LooseAtMostNumber(v: JsValue, n: int) {
    match ToNumber(v)
    case Some(m) => NumAtMost(m, Finite(n as real))
    case None => false
  }

  /** Text that neither starts nor ends with whitespace is left alone by `trim`. */
  lemma TrimUntouched(s: string)
    requires s != [] && !IsWhitespace(s[0]) && !IsWhitespace(s[|s| - 1])
    ensures Trim(s) == s
  {
    assert SpaceEnd(s, 0) == 0;
    assert TrimStart(s) == s;
    assert SpaceStart(s, |s|) == |s|;
  }

  /** A decimal literal starts with a digit or the point and ends with a
      digit or the point, so `trim` leaves it (and a sign before it) alone. */
  lemma DecimalEnds(u: string)
    requires UnsignedDecimal(u).Some?
    ensures u != [] && (Digit(u[0]) < 10 || u[0] == '.')
    ensures Digit(u[|u| - 1]) < 10 || u[|u| - 1] == '.'
  {
    var i := DigitEnd(u, 0, 10);
    var j := FractionEnd(u, i);
    if j < |u| {
      ExponentEnds(u[j..]);
      assert u[|u| - 1] == u[j..][|u[j..]| - 1];
    } else if j == i {
      assert Digit(u[i - 1]) < 10;
    } else if j > i + 1 {
      assert Digit(u[j - 1]) < 10;
    }
  }

  /** A non-empty exponent part ends with a digit. */
  lemma ExponentEnds(x: string)
    requires x != [] && ExponentPart(x).Some?
    ensures Digit(x[|x| - 1]) < 10
  {
    var y := x[1..];
    var d := if |y| > 0 && (y[0] == '-' || y[0] == '+') then y[1..] else y;
    assert d != [] && DigitEnd(d, 0, 10) == |d|;
    assert x[|x| - 1] == d[|d| - 1];
  }

  /** A decimal literal never starts like a `0x`, `0o` or `0b` integer. */
  lemma DecimalHasNoPrefix(u: string)
    requires UnsignedDecimal(u).Some?
    ensures PrefixBase(u) == 0
  {
  }

  /** Trimmed text that is neither empty, an infinity nor a prefixed integer
      is read as a signed decimal literal. */
  lemma DecimalDispatch(t: string)
    requires t != [] && t[0] != 'I' && t[0] != '+'
    requires t[0] == '-' ==> |t| >= 2 && t[1] != 'I'
    requires PrefixBase(t) == 0
    ensures TrimmedToNumber(t) == SignedDecimal(t)
  {
    assert t != "Infinity" && t != "+Infinity";
  }

  /** A run of decimal digits is a decimal literal of its own value. */
  lemma UnsignedOfDigits(d: string)
    requires d != [] && forall i :: 0 <= i < |d| ==> Digit(d[i]) < 10
    ensures UnsignedDecimal(d) == Some(DigitsValue(d, 10) as real)
  {
    DigitPrefixAll(d, 10);
    var i := DigitEnd(d, 0, 10);
    assert FractionEnd(d, i) == i;
    assert ExponentPart(d[i..]) == Some(0) by { assert d[i..] == []; }
    assert d[..i] + "" == d;
  }

  /** `Number` of the text of an integer gives that integer. */
  lemma NumberOfIntegerText(n: int)
    ensures StringToNumber(IntToString(n)) == Some(Finite(n as real))
  {
    var m: nat := if n < 0 then -n else n;
    var d := NatToDecimal(m);
    assert IntToString(n) == WithSign(n < 0, d);
    DecimalValue(m);
    UnsignedOfDigits(d);
    assert UnsignedDecimal(d) == Some(m as real);
    NumberOfDecimalText(d, n < 0);
  }

  /** The text `-u` or `u`. */
  function WithSign(negative: bool, u: string): (t: string)
    ensures |t| == |u| + (if negative then 1 else 0)
  {
    if negative then "-" + u else u
  }

  /** `Number` of a decimal literal, signed or not, is that literal's value
      with the sign. */
  lemma NumberOfDecimalText(u: string, negative: bool)
    requires UnsignedDecimal(u).Some?
    ensures StringToNumber(WithSign(negative, u))
      == Some(Finite(if negative then -UnsignedDecimal(u).value else UnsignedDecimal(u).value))
  {
    var t := WithSign(negative, u);
    SignedDecimalShape(u, negative);
    SignedDecimalValue(u, negative);
    UntrimmedDecimal(t);
  }

  /** A sign and a decimal literal form text that starts and ends like a
      decimal literal. */
  lemma SignedDecimalShape(u: string, negative: bool)
    requires UnsignedDecimal(u).Some?
    ensures var t := WithSign(negative, u);
      && t != [] && (Digit(t[0]) < 10 || t[0] == '.' || t[0] == '-')
      && (Digit(t[|t| - 1]) < 10 || t[|t| - 1] == '.')
      && (t[0] == '-' ==> |t| >= 2 && t[1] != 'I')
      && PrefixBase(t) == 0
  {
    var t := WithSign(negative, u);
    DecimalEnds(u);
    DecimalHasNoPrefix(u);
    assert t[|t| - 1] == u[|u| - 1];
    if negative {
      assert t[1] == u[0];
    }
  }

  /** `SignedDecimal` reads a sign and a decimal literal with the sign. */
  lemma SignedDecimalValue(u: string, negative: bool)
    requires UnsignedDecimal(u).Some?
    ensures WithSign(negative, u) != []
      && SignedDecimal(WithSign(negative, u))
         == Some(Finite(if negative then -UnsignedDecimal(u).value else UnsignedDecimal(u).value))
  {
    var t := WithSign(negative, u);
    var r := UnsignedDecimal(u).value;
    if negative {
      assert t[0] == '-' && t[1..] == u;
    } else {
      DecimalEnds(u);
      assert t[0] != '-' && t[0] != '+';
    }
  }

  /** Text that starts and ends like a decimal literal and is no infinity
      and no prefixed integer is read by `SignedDecimal`, untrimmed. */
  lemma UntrimmedDecimal(t: string)
    requires t != [] && (Digit(t[0]) < 10 || t[0] == '.' || t[0] == '-')
    requires Digit(t[|t| - 1]) < 10 || t[|t| - 1] == '.'
    requires t[0] == '-' ==> |t| >= 2 && t[1] != 'I'
    requires PrefixBase(t) == 0
    ensures StringToNumber(t) == SignedDecimal(t)
  {
    DecimalCharNotSpace(t[0]);
    DecimalCharNotSpace(t[|t| - 1]);
    TrimUntouched(t);
    DecimalDispatch(t);
  }

  /** `v <= 0` for a decimal literal, signed or not, holds exactly when the
      literal carries a minus sign or its value is zero. */
  lemma DecimalAtMostZero(u: string, negative: bool)
    requires UnsignedDecimal(u).Some?
    ensures LooseAtMostNumber(Str(WithSign(negative, u)), 0)
      <==> negative || UnsignedDecimal(u).value == 0.0
  {
    var r := UnsignedDecimal(u).value;
    assert r >= 0.0;
    NumberOfDecimalText(u, negative);
  }

  lemma DecimalCharNotSpace(c: char)
    requires Digit(c) < 10 || c == '.' || c == '-'
    ensures !IsWhitespace(c)
  {
  }

  /** `a === b`: same type and value, except that `NaN` equals nothing. */
  predicate StrictEquals(a: JsValue, b: JsValue) {
    a == b && !a.NaN?
  }

  // ---------------------------------------------------------------------
  // Array.prototype.slice

  /** Relative index resolution of `slice`: negative counts from the end,
      and the result is clamped into `[0, len]`. */
  function ClampIndex(k: int, len: nat): (r: nat)
    ensures r <= len
  {
    if k < 0 then (if len + k < 0 then 0 else len + k) else if k > len then len else k
  }

  /** `s.slice(start, end)`. */
  function Slice<T>(s: seq<T>, start: int, end: int): seq<T> {
    var a, b := ClampIndex(start, |s|), ClampIndex(end, |s|);
    if a < b then s[a..b] else []
  }
}
