/**
 * The JavaScript string built-ins the relay relies on: truthiness of an
 * optional string, `trim`, `split(',')[0]`, `includes`, ASCII case mapping,
 * the decimal rendering of a non-negative integer and `padStart`.
 * Each is stated as a function with the property callers need, and the
 * rendering of numbers comes with its inverse.
 */
module Text {

  datatype Option<+T> = None | Some(value: T)

  /** JavaScript truthiness of a value that is either absent or a string:
      `undefined`, `null` and `""` are falsy. */
  predicate Truthy(o: Option<string>)
  {
    o.Some? && o.value != ""
  }

  // ---------------------------------------------------------------------
  // trim
  // ---------------------------------------------------------------------

  /** The ECMAScript WhiteSpace and LineTerminator code points, which are
      exactly what `String.prototype.trim` removes. */
  predicate IsWhitespace(c: char)
  {
    c == '\t' || c == '\n' || c == '\U{000B}' || c == '\U{000C}' || c == '\r' || c == ' '
    || c == '\U{00A0}' || c == '\U{1680}' || ('\U{2000}' <= c <= '\U{200A}')
    || c == '\U{2028}' || c == '\U{2029}' || c == '\U{202F}' || c == '\U{205F}'
    || c == '\U{3000}' || c == '\U{FEFF}'
  }

  /** The first position at or after `i` that does not hold whitespace
      (or `|s|`): everything skipped is whitespace. */
  function SkipLeading(s: string, i: nat): (r: nat)
    requires i <= |s|
    ensures i <= r <= |s|
    ensures forall k :: i <= k < r ==> IsWhitespace(s[k])
    ensures r == |s| || !IsWhitespace(s[r])
    decreases |s| - i
  {
    if i < |s| && IsWhitespace(s[i]) then SkipLeading(s, i + 1) else i
  }

  /** The end of `s[lo..j]` once its trailing whitespace is dropped:
      everything dropped is whitespace. */
  function SkipTrailing(s: string, lo: nat, j: nat): (r: nat)
    requires lo <= j <= |s|
    ensures lo <= r <= j
    ensures forall k :: r <= k < j ==> IsWhitespace(s[k])
    ensures r == lo || !IsWhitespace(s[r - 1])
    decreases j
  {
    if j > lo && IsWhitespace(s[j - 1]) then SkipTrailing(s, lo, j - 1) else j
  }

  /** `s.trim()`: the piece between the leading and the trailing whitespace. */
  function Trim(s: string): string
  {
    var i := SkipLeading(s, 0);
    s[i..SkipTrailing(s, i, |s|)]
  }

  /** `Trim` keeps a contiguous piece `s[i..j]` of its input, removes only
      whitespace around it, and leaves no whitespace at either end. */
  lemma TrimIsInnerSlice(s: string) returns (i: int, j: int)
    ensures 0 <= i <= j <= |s| && Trim(s) == s[i..j]
    ensures forall k :: 0 <= k < i ==> IsWhitespace(s[k])
    ensures forall k :: j <= k < |s| ==> IsWhitespace(s[k])
    ensures Trim(s) == [] || (!IsWhitespace(Trim(s)[0]) && !IsWhitespace(Trim(s)[|Trim(s)| - 1]))
  {
    i := SkipLeading(s, 0);
    j := SkipTrailing(s, i, |s|);
    if i < j {
      assert Trim(s)[0] == s[i];
      assert Trim(s)[|Trim(s)| - 1] == s[j - 1];
    }
  }

  // ---------------------------------------------------------------------
  // split(',')[0]
  // ---------------------------------------------------------------------

  /** `s.split(sep)[0]`: everything before the first `sep`, or all of `s`. */
  function FirstField(s: string, sep: char): (r: string)
    ensures sep !in r
    ensures |r| <= |s| && r == s[..|r|]
    ensures |r| == |s| || s[|r|] == sep
  {
    if |s| == 0 || s[0] == sep then [] else [s[0]] + FirstField(s[1..], sep)
  }

  // ---------------------------------------------------------------------
  // includes
  // ---------------------------------------------------------------------

  /** `t` occurs in `s` starting at position `i`. */
  predicate OccursAt(s: string, t: string, i: int)
  {
    0 <= i <= |s| - |t| && s[i..i + |t|] == t
  }

  /** `t` occurs in `s` at some position. */
  ghost predicate Occurs(s: string, t: string)
  {
    exists i :: OccursAt(s, t, i)
  }

  /** `s.includes(t)`, by scanning `s` from the left. */
  function Contains(s: string, t: string): (b: bool)
    ensures b <==> Occurs(s, t)
    decreases |s|
  {
    if |t| > |s| then false
    else if s[..|t|] == t then assert OccursAt(s, t, 0); true
    else
      var b := Contains(s[1..], t);
      assert b ==> Occurs(s, t) by {
        if b {
          var i :| OccursAt(s[1..], t, i);
          assert s[i + 1..i + 1 + |t|] == t;
          assert OccursAt(s, t, i + 1);
        }
      }
      assert Occurs(s, t) ==> b by {
        if Occurs(s, t) {
          var i :| OccursAt(s, t, i);
          assert i != 0;
          assert s[1..][i - 1..i - 1 + |t|] == t;
          assert OccursAt(s[1..], t, i - 1);
        }
      }
      b
  }

  // ---------------------------------------------------------------------
  // ASCII case mapping
  // ---------------------------------------------------------------------

  function LowerChar(c: char): char
  {
    if 'A' <= c <= 'Z' then (c as int - 'A' as int + 'a' as int) as char else c
  }

  function UpperChar(c: char): char
  {
    if 'a' <= c <= 'z' then (c as int - 'a' as int + 'A' as int) as char else c
  }

  /** `s.toLowerCase()` on ASCII text: the same length, no upper-case
      letter left, and each character either kept or, when it was an
      upper-case letter, replaced by the letter it is the capital of. */
  function ToLower(s: string): (r: string)
    ensures |r| == |s|
    ensures forall i :: 0 <= i < |s| ==> !('A' <= r[i] <= 'Z')
    ensures forall i :: 0 <= i < |s| ==>
      if 'A' <= s[i] <= 'Z' then r[i] as int == s[i] as int + 32 else r[i] == s[i]
  {
    seq(|s|, i requires 0 <= i < |s| => LowerChar(s[i]))
  }

  lemma ToLowerAppend(a: string, b: string)
    ensures ToLower(a + b) == ToLower(a) + ToLower(b)
  {
  }

  /** `s.toUpperCase()` on ASCII text: the same length, no lower-case
      letter left, and each character either kept or, when it was a
      lower-case letter, replaced by its capital. */
  function ToUpper(s: string): (r: string)
    ensures |r| == |s|
    ensures forall i :: 0 <= i < |s| ==> !('a' <= r[i] <= 'z')
    ensures forall i :: 0 <= i < |s| ==>
      if 'a' <= s[i] <= 'z' then r[i] as int == s[i] as int - 32 else r[i] == s[i]
  {
    seq(|s|, i requires 0 <= i < |s| => UpperChar(s[i]))
  }

  // ---------------------------------------------------------------------
  // Decimal rendering of non-negative integers and its inverse
  // ---------------------------------------------------------------------

  predicate IsDigit(c: char)
  {
    '0' <= c <= '9'
  }

  predicate AllDigits(s: string)
  {
    forall i :: 0 <= i < |s| ==> IsDigit(s[i])
  }

  function DigitChar(d: nat): (c: char)
    requires d < 10
  {
    (d + '0' as int) as char
  }

  function DigitValue(c: char): nat
    requires IsDigit(c)
  {
    c as int - '0' as int
  }

  /** Reads a decimal numeral (leading zeros allowed); `None` for the empty
      string or any non-digit. */
  function ParseNat(s: string): Option<nat>
    decreases |s|
  {
    if |s| == 0 || !IsDigit(s[|s| - 1]) then None
    else if |s| == 1 then Some(DigitValue(s[0]))
    else match ParseNat(s[..|s| - 1])
      case None => None
      case Some(p) => Some(p * 10 + DigitValue(s[|s| - 1]))
  }

  /** `String(n)` / `${n}` for a non-negative integer: at least one digit,
      only digits, no leading zero (zero itself is "0"), one digit exactly
      below 10, at most two below 100, and `ParseNat` reads back `n`. */
  function NatToString(n: nat): (s: string)
    ensures AllDigits(s) && |s| >= 1
    ensures |s| == 1 || s[0] != '0'
    ensures s[0] == '0' <==> n == 0
    ensures (n < 10 <==> |s| == 1) && (n < 100 ==> |s| <= 2)
    ensures ParseNat(s) == Some(n)
  {
    if n < 10 then [DigitChar(n)]
    else
      var p := NatToString(n / 10);
      var s := p + [DigitChar(n % 10)];
      assert s[..|s| - 1] == p;
      s
  }

  /** A leading zero does not change the value of a numeral. */
  lemma {:induction false} ParseNatLeadingZero(s: string)
    requires |s| >= 1
    ensures ParseNat("0" + s) == ParseNat(s)
    decreases |s|
  {
    var z := "0" + s;
    if IsDigit(s[|s| - 1]) && |s| > 1 {
      assert z[..|z| - 1] == "0" + s[..|s| - 1];
      ParseNatLeadingZero(s[..|s| - 1]);
    } else if IsDigit(s[|s| - 1]) {
      assert z[..|z| - 1] == "0";
    }
  }

  // ---------------------------------------------------------------------
  // padStart
  // ---------------------------------------------------------------------

  function Repeat(c: char, n: nat): (r: string)
    ensures |r| == n && forall i :: 0 <= i < n ==> r[i] == c
  {
    if n == 0 then [] else [c] + Repeat(c, n - 1)
  }

  /** `s.padStart(width, pad)`: `s` itself when it is already wide enough,
      otherwise `s` preceded by as many `pad` characters as it takes. */
  function PadStart(s: string, width: nat, pad: char): (r: string)
    ensures |r| == if |s| >= width then |s| else width
    ensures r[|r| - |s|..] == s
    ensures forall i :: 0 <= i < |r| - |s| ==> r[i] == pad
  {
    if |s| >= width then s else Repeat(pad, width - |s|) + s
  }

  /** Zero-padding a numeral to two digits keeps its value. */
  lemma PadTwoKeepsValue(n: nat)
    requires n < 100
    ensures var p := PadStart(NatToString(n), 2, '0');
      |p| == 2 && AllDigits(p) && ParseNat(p) == Some(n)
  {
    var s := NatToString(n);
    if |s| == 1 {
      assert PadStart(s, 2, '0') == "0" + s;
      ParseNatLeadingZero(s);
    }
  }
}
