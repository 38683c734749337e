/**
 * The few JavaScript built-ins the server's code leans on, written out with the
 * ECMAScript semantics that matter here: truthiness of strings, `||` defaults,
 * `startsWith`, `substring`, `split` on one character, `parseInt` without a
 * radix, and the decimal rendering of a non-negative integer in a template
 * literal.
 */
module JsBuiltins {
  import opened Wrappers

  // ---------------------------------------------------------------------------
  // Truthiness and `||` defaults
  // ---------------------------------------------------------------------------

  /** An optional string is truthy unless it is `undefined` or `""`. */
  predicate Truthy(v: Option<string>) {
    v.Some? && v.value != ""
  }

  /** `v || fallback` where `v` is an optional string and `fallback` a string. */
  function OrElse(v: Option<string>, fallback: string): string {
    if Truthy(v) then v.value else fallback
  }

  // ---------------------------------------------------------------------------
  // startsWith and substring
  // ---------------------------------------------------------------------------

  /** `s.startsWith(prefix)`: case-sensitive, character by character. */
  predicate StartsWith(s: string, prefix: string) {
    |prefix| <= |s| && s[..|prefix|] == prefix
  }

  /** The clamping `substring` applies to each of its indices. */
  function Clamp(i: int, len: nat): (r: nat)
    ensures r <= len
    ensures 0 <= i <= len ==> r == i
  {
    if i < 0 then 0 else if i > len then len else i
  }

  /**
   * `s.substring(start, end)`: both indices are clamped into `[0, |s|]` and
   * swapped when the first is the larger, so the call never fails.
   */
  function Substring(s: string, start: int, end: int): (r: string)
    ensures |r| <= |s|
    ensures start <= end ==> |r| <= end - start
    ensures end <= start ==> |r| <= start - end
    ensures 0 <= start <= end <= |s| ==> r == s[start..end]
    ensures 0 <= end <= start <= |s| ==> r == s[end..start]
    ensures 0 <= start <= |s| <= end ==> r == s[start..]
    ensures 0 <= end <= |s| <= start ==> r == s[end..]
    ensures start <= 0 && end <= 0 ==> r == ""
  {
    var a, b := Clamp(start, |s|), Clamp(end, |s|);
    if a <= b then s[a..b] else s[b..a]
  }

  /** Swapping the two indices of `substring` changes nothing. */
  lemma SubstringSymmetric(s: string, start: int, end: int)
    ensures Substring(s, start, end) == Substring(s, end, start)
  {
  }

  // ---------------------------------------------------------------------------
  // split on a single character, and its inverse
  // ---------------------------------------------------------------------------

  /**
   * `s.split(sep)` for a one-character separator: the maximal runs between
   * separators, in order, with no trimming; `""` splits into `[""]` and two
   * adjacent separators yield an empty part.
   */
  function Split(s: string, sep: char): (parts: seq<string>)
    ensures |parts| >= 1
    ensures forall i :: 0 <= i < |parts| ==> sep !in parts[i]
    decreases |s|
  {
    if |s| == 0 then [""]
    else
      var rest := Split(s[1..], sep);
      if s[0] == sep then [""] + rest
      else [[s[0]] + rest[0]] + rest[1..]
  }

  /** `parts.join(sep)`: the parts with one separator between neighbours. */
  function Join(parts: seq<string>, sep: char): string
    requires |parts| >= 1
    decreases |parts|
  {
    if |parts| == 1 then parts[0] else parts[0] + [sep] + Join(parts[1..], sep)
  }

  /** Joining the parts of a split gives back the string. */
  lemma {:induction false} JoinSplit(s: string, sep: char)
    ensures Join(Split(s, sep), sep) == s
    decreases |s|
  {
    if |s| > 0 {
      JoinSplit(s[1..], sep);
      var rest := Split(s[1..], sep);
      if s[0] != sep && |rest| > 1 {
        assert Join(rest, sep) == rest[0] + [sep] + Join(rest[1..], sep);
        assert rest[1..][1..] == rest[2..];
      }
    }
  }

  /** Splitting `p + t` where `p` holds no separator extends the first part of `t`'s split. */
  lemma {:induction false} SplitSeparatorFreePrefix(p: string, t: string, sep: char)
    requires sep !in p
    ensures Split(p + t, sep) == [p + Split(t, sep)[0]] + Split(t, sep)[1..]
    decreases |p|
  {
    if |p| > 0 {
      assert (p + t)[1..] == p[1..] + t;
      assert (p + t)[0] == p[0];
      SplitSeparatorFreePrefix(p[1..], t, sep);
      assert [p[0]] + (p[1..] + Split(t, sep)[0]) == p + Split(t, sep)[0];
    } else {
      assert p + t == t;
      assert p + Split(t, sep)[0] == Split(t, sep)[0];
    }
  }

  /** Splitting a join of separator-free parts gives back the parts. */
  lemma {:induction false} SplitJoin(parts: seq<string>, sep: char)
    requires |parts| >= 1
    requires forall i :: 0 <= i < |parts| ==> sep !in parts[i]
    ensures Split(Join(parts, sep), sep) == parts
    decreases |parts|
  {
    if |parts| == 1 {
      SplitSeparatorFreePrefix(parts[0], "", sep);
      assert parts[0] + "" == parts[0];
    } else {
      var tail := Join(parts[1..], sep);
      SplitJoin(parts[1..], sep);
      var t := [sep] + tail;
      assert Join(parts, sep) == parts[0] + t;
      SplitSeparatorFreePrefix(parts[0], t, sep);
      assert t[1..] == tail;
      assert Split(t, sep) == [""] + parts[1..];
      assert parts[0] + "" == parts[0];
      assert parts == [parts[0]] + parts[1..];
    }
  }

  // ---------------------------------------------------------------------------
  // parseInt(string) with no radix
  // ---------------------------------------------------------------------------

  /** The characters ECMAScript's StrWhiteSpaceChar admits: WhiteSpace and LineTerminator. */
  predicate IsStrWhiteSpace(c: char) {
    || c == '\t' || c == '\n' || c == '\U{B}' || c == '\U{C}' || c == '\r'
    || c == ' ' || c == '\U{A0}' || c == '\U{1680}'
    || ('\U{2000}' <= c <= '\U{200A}')
    || c == '\U{2028}' || c == '\U{2029}' || c == '\U{202F}' || c == '\U{205F}'
    || c == '\U{3000}' || c == '\U{FEFF}'
  }

  /** The string with its leading white space removed. */
  function TrimStart(s: string): (t: string)
    ensures |t| <= |s| && t == s[|s| - |t|..]
    ensures |t| > 0 ==> !IsStrWhiteSpace(t[0])
    ensures forall i :: 0 <= i < |s| - |t| ==> IsStrWhiteSpace(s[i])
  {
    if |s| > 0 && IsStrWhiteSpace(s[0]) then TrimStart(s[1..]) else s
  }

  /** The value of an ASCII letter-or-digit in radix 36, and 36 for anything else. */
  function DigitValue(c: char): (d: nat)
    ensures d <= 36
  {
    if '0' <= c <= '9' then c as int - '0' as int
    else if 'a' <= c <= 'z' then c as int - 'a' as int + 10
    else if 'A' <= c <= 'Z' then c as int - 'A' as int + 10
    else 36
  }

  predicate IsDigit(c: char, radix: nat) {
    DigitValue(c) < radix
  }

  predicate AllDigits(z: string, radix: nat) {
    forall i :: 0 <= i < |z| ==> IsDigit(z[i], radix)
  }

  /** The longest prefix of `s` made of radix-`radix` digits. */
  function LeadingDigits(s: string, radix: nat): (z: string)
    ensures |z| <= |s| && z == s[..|z|] && AllDigits(z, radix)
    ensures |z| < |s| ==> !IsDigit(s[|z|], radix)
  {
    if |s| > 0 && IsDigit(s[0], radix) then [s[0]] + LeadingDigits(s[1..], radix) else ""
  }

  /** The mathematical value of a string of digits, most significant first. */
  function DigitsValue(z: string, radix: nat): nat
    requires AllDigits(z, radix)
  {
    if z == "" then 0 else DigitsValue(z[..|z| - 1], radix) * radix + DigitValue(z[|z| - 1])
  }

  /**
   * `parseInt(s)`: skip leading white space, take an optional sign, switch to
   * radix 16 after a `0x`/`0X` prefix, then read the longest run of digits;
   * `None` stands for `NaN` (no digit at all). Negative zero is folded into 0,
   * which is falsy like it; the rounding of values past 2^53 is not modelled.
   */
  function ParseInt(s: string): (r: Option<int>)
    ensures var u := Unsigned(TrimStart(s));
      r.None? <==> LeadingDigits(IntBody(u), IntRadix(u)) == ""
  {
    var t := TrimStart(s);
    match ParseUnsigned(Unsigned(t))
    case None => None
    case Some(v) => Some(if |t| > 0 && t[0] == '-' then -(v as int) else v)
  }

  /** A string with its white space skipped, after its sign. */
  function Unsigned(t: string): string {
    if |t| > 0 && (t[0] == '-' || t[0] == '+') then t[1..] else t
  }

  predicate HasHexPrefix(u: string) {
    |u| >= 2 && u[0] == '0' && (u[1] == 'x' || u[1] == 'X')
  }

  function IntRadix(u: string): nat {
    if HasHexPrefix(u) then 16 else 10
  }

  /** The digits part of an unsigned input, after the `0x` prefix if any. */
  function IntBody(u: string): string {
    if HasHexPrefix(u) then u[2..] else u
  }

  /** The magnitude `parseInt` reads from what follows the sign. */
  function ParseUnsigned(u: string): (r: Option<nat>)
    ensures r.None? <==> LeadingDigits(IntBody(u), IntRadix(u)) == ""
  {
    var z := LeadingDigits(IntBody(u), IntRadix(u));
    if z == "" then None else Some(DigitsValue(z, IntRadix(u)))
  }

  // ---------------------------------------------------------------------------
  // Decimal rendering of a non-negative integer (`${n}`)
  // ---------------------------------------------------------------------------

  function DecimalDigit(d: nat): (c: char)
    requires d < 10
    ensures IsDigit(c, 10) && DigitValue(c) == d
  {
    ('0' as int + d) as char
  }

  /** The shortest decimal rendering of `n`, as a template literal prints an integral number. */
  function DecimalString(n: nat): (s: string)
    ensures |s| >= 1 && AllDigits(s, 10)
    ensures |s| > 1 ==> s[0] != '0'
  {
    if n < 10 then [DecimalDigit(n)] else DecimalString(n / 10) + [DecimalDigit(n % 10)]
  }

  /** Reading the digits of a decimal rendering gives back the number. */
  lemma {:induction false} DecimalValue(n: nat)
    ensures DigitsValue(DecimalString(n), 10) == n
  {
    var s := DecimalString(n);
    if n >= 10 {
      DecimalValue(n / 10);
      assert s[..|s| - 1] == DecimalString(n / 10);
    } else {
      assert s[..|s| - 1] == "";
    }
  }

  /** The decimal rendering is injective: distinct numbers print differently. */
  lemma DecimalStringInjective(m: nat, n: nat)
    requires DecimalString(m) == DecimalString(n)
    ensures m == n
  {
    DecimalValue(m);
    DecimalValue(n);
  }

  /** The leading run of digits ends where the digits do: at the end, or at the first non-digit. */
  lemma {:induction false} LeadingDigitsStop(z: string, tail: string, radix: nat)
    requires AllDigits(z, radix)
    requires tail == "" || !IsDigit(tail[0], radix)
    ensures LeadingDigits(z + tail, radix) == z
    decreases |z|
  {
    if |z| > 0 {
      LeadingDigitsStop(z[1..], tail, radix);
      assert (z + tail)[1..] == z[1..] + tail;
      assert [z[0]] + z[1..] == z;
    } else {
      assert z + tail == tail;
    }
  }

  /** A decimal digit is neither white space, nor a sign, nor a letter. */
  lemma DecimalDigitPlain(c: char)
    requires IsDigit(c, 10)
    ensures '0' <= c <= '9' && !IsStrWhiteSpace(c)
  {
  }

  /** A positive number's rendering does not begin with `0`, so `parseInt` never mistakes it for hex. */
  lemma DecimalStringNoLeadingZero(n: nat)
    requires n > 0
    ensures DecimalString(n)[0] != '0'
  {
    if n < 10 {
      assert DigitValue(DecimalString(n)[0]) == n;
    }
  }

  /** An input that starts with neither white space nor a sign is read by `ParseUnsigned` as it is. */
  lemma ParseIntPlain(s: string)
    requires |s| > 0 && !IsStrWhiteSpace(s[0]) && s[0] != '-' && s[0] != '+'
    ensures ParseInt(s) == ParseUnsigned(s)
  {
    assert TrimStart(s) == s;
    assert Unsigned(s) == s;
  }

  /**
   * After the sign, a decimal rendering followed by a non-digit (or by
   * nothing) is read back as the number it renders.
   */
  lemma ParseUnsignedDecimal(n: nat, tail: string)
    requires tail == "" || !IsDigit(tail[0], 10)
    requires n > 0 || tail == ""
    ensures ParseUnsigned(DecimalString(n) + tail) == Some(n)
  {
    var d := DecimalString(n);
    var u := d + tail;
    assert u[0] == d[0];
    if n > 0 {
      DecimalStringNoLeadingZero(n);
    } else {
      assert u == d && |d| == 1;
    }
    assert !HasHexPrefix(u);
    LeadingDigitsStop(d, tail, 10);
    DecimalValue(n);
  }

  /** `parseInt` reads a positive decimal rendering back and ignores whatever follows its last digit. */
  lemma ParseIntDecimalPrefix(n: nat, tail: string)
    requires n > 0
    requires tail == "" || !IsDigit(tail[0], 10)
    ensures ParseInt(DecimalString(n) + tail) == Some(n)
  {
    var d := DecimalString(n);
    var s := d + tail;
    assert s[0] == d[0];
    DecimalDigitPlain(d[0]);
    ParseIntPlain(s);
    ParseUnsignedDecimal(n, tail);
  }

  /** `parseInt` reads back what the decimal rendering prints. */
  lemma ParseIntDecimal(n: nat)
    ensures ParseInt(DecimalString(n)) == Some(n)
  {
    var d := DecimalString(n);
    assert d + "" == d;
    DecimalDigitPlain(d[0]);
    ParseIntPlain(d);
    ParseUnsignedDecimal(n, "");
  }

  /**
   * A leading minus sign negates what `parseInt` reads from a rest that does
   * not begin with white space or a sign (`-0x10`, `-007`, `-12abc`), and
   * `NaN` stays `NaN`. Only one sign is taken after the white space, so `- 5`
   * is `NaN` although ` 5` is 5.
   */
  lemma ParseIntMinusSign(s: string)
    requires s == "" || (!IsStrWhiteSpace(s[0]) && s[0] != '-' && s[0] != '+')
    ensures ParseInt("-" + s) == (match ParseInt(s) case None => None case Some(v) => Some(-v))
  {
    var t := "-" + s;
    assert t[0] == '-' && t[1..] == s;
    assert TrimStart(t) == t by { assert !IsStrWhiteSpace(t[0]); }
    assert Unsigned(t) == s;
    if s != "" {
      ParseIntPlain(s);
    } else {
      assert TrimStart(s) == s && Unsigned(s) == s;
    }
  }

  /**
   * A minus sign before a rendered non-negative integer negates it: the case of
   * ParseIntMinusSign for a decimal rendering, proved directly to stay cheap.
   */
  lemma ParseIntNegated(n: nat)
    ensures ParseInt("-" + DecimalString(n)) == Some(-(n as int))
  {
    var d := DecimalString(n);
    var s := "-" + d;
    assert d + "" == d;
    ParseUnsignedDecimal(n, "");
    assert ParseUnsigned(d) == Some(n);
    assert s[0] == '-' && s[1..] == d;
    assert TrimStart(s) == s by { assert !IsStrWhiteSpace(s[0]); }
    assert Unsigned(s) == d;
  }

  /** After the sign, a `0x` prefix makes the following hex digits the magnitude. */
  lemma ParseUnsignedHex(z: string, tail: string)
    requires |z| > 0 && AllDigits(z, 16)
    requires tail == "" || !IsDigit(tail[0], 16)
    ensures ParseUnsigned("0x" + (z + tail)) == Some(DigitsValue(z, 16))
  {
    var u := "0x" + (z + tail);
    assert u[0] == '0' && u[1] == 'x' && u[2..] == z + tail;
    assert HasHexPrefix(u);
    LeadingDigitsStop(z, tail, 16);
  }

  /**
   * After a `0x` prefix the digits are read in radix 16, up to the first
   * character that is not a hex digit.
   */
  lemma ParseIntHex(z: string, tail: string)
    requires |z| > 0 && AllDigits(z, 16)
    requires tail == "" || !IsDigit(tail[0], 16)
    ensures ParseInt("0x" + z + tail) == Some(DigitsValue(z, 16))
  {
    var s := "0x" + (z + tail);
    assert "0x" + z + tail == s;
    assert s[0] == '0';
    ParseIntPlain(s);
    ParseUnsignedHex(z, tail);
  }

  /** One leading white-space character is skipped (ParseIntSkipsWhiteSpaceRun covers any run). */
  lemma ParseIntSkipsWhiteSpace(c: char, s: string)
    requires IsStrWhiteSpace(c)
    ensures ParseInt([c] + s) == ParseInt(s)
  {
    var t := [c] + s;
    assert t[0] == c && t[1..] == s;
    assert TrimStart(t) == TrimStart(s);
  }

  /** Removing leading white space removes a whole leading run of it. */
  lemma {:induction false} TrimStartSkipsRun(w: string, s: string)
    requires forall i | 0 <= i < |w| :: IsStrWhiteSpace(w[i])
    ensures TrimStart(w + s) == TrimStart(s)
  {
    if w != [] {
      var rest := w[1..] + s;
      assert (w + s)[0] == w[0] && IsStrWhiteSpace(w[0]);
      assert (w + s)[1..] == rest;
      TrimStartSkipsRun(w[1..], s);
    } else {
      assert w + s == s;
    }
  }

  /** A whole run of leading white space does not change what `parseInt` reads. */
  lemma ParseIntSkipsWhiteSpaceRun(w: string, s: string)
    requires forall i | 0 <= i < |w| :: IsStrWhiteSpace(w[i])
    ensures ParseInt(w + s) == ParseInt(s)
  {
    var t := w + s;
    TrimStartSkipsRun(w, s);
    assert TrimStart(t) == TrimStart(s);
  }

  /** A first character that is neither white space, a sign nor a digit makes `parseInt` give `NaN`. */
  lemma ParseIntNaN(s: string)
    requires |s| > 0 && !IsStrWhiteSpace(s[0])
    requires s[0] != '-' && s[0] != '+' && !IsDigit(s[0], 10)
    ensures ParseInt(s) == None
  {
    ParseIntPlain(s);
    assert !HasHexPrefix(s);
  }
}
