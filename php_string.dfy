/**
 * The PHP string built-ins the package relies on, over `string` (= seq<char>):
 * `preg_replace('/\s+/', '', $s)`, `strtolower`, `explode`/`implode` with a
 * one-character delimiter, `str_replace` of one character, `basename`,
 * integer-to-string conversion, the integer-like string test PHP applies to
 * array keys, and `is_numeric` on strings.
 */
module PhpString {

  // ---------------------------------------------------------------------------
  // Whitespace: the class `\s` of PCRE without Unicode mode, which is also the
  // set PHP skips around a numeric string.
  // ---------------------------------------------------------------------------

  predicate IsWhitespace(c: char) {
    c == ' ' || c == '\t' || c == '\n' || c == '\r' || c == '\U{000B}' || c == '\U{000C}'
  }

  predicate NoWhitespace(s: string) {
    forall i :: 0 <= i < |s| ==> !IsWhitespace(s[i])
  }

  /** `preg_replace('/\s+/', '', s)`: every run of whitespace is replaced by nothing. */
  function StripWhitespace(s: string): (r: string)
    ensures |r| <= |s|
    ensures NoWhitespace(r)
  {
    if |s| == 0 then ""
    else if IsWhitespace(s[0]) then StripWhitespace(s[1..])
    else [s[0]] + StripWhitespace(s[1..])
  }

  /** Stripping leaves a string without whitespace untouched, and only such a string. */
  lemma {:induction false} StripWhitespaceFixpoint(s: string)
    ensures StripWhitespace(s) == s <==> NoWhitespace(s)
  {
    if |s| > 0 {
      StripWhitespaceFixpoint(s[1..]);
      if IsWhitespace(s[0]) {
        assert |StripWhitespace(s[1..])| <= |s[1..]| < |s|;
      } else {
        assert NoWhitespace(s) <==> NoWhitespace(s[1..]) by {
          if NoWhitespace(s[1..]) {
            forall i | 0 <= i < |s| ensures !IsWhitespace(s[i]) {
              if i > 0 { assert s[i] == s[1..][i - 1]; }
            }
          }
        }
      }
    }
  }

  /** Stripping keeps every non-whitespace character: the count of each one is unchanged. */
  lemma {:induction false} StripWhitespaceKeeps(s: string, c: char)
    requires !IsWhitespace(c)
    ensures multiset(StripWhitespace(s))[c] == multiset(s)[c]
  {
    if |s| > 0 {
      StripWhitespaceKeeps(s[1..], c);
      assert s == [s[0]] + s[1..];
    }
  }

  /** Stripping twice is stripping once. */
  lemma StripWhitespaceIdempotent(s: string)
    ensures StripWhitespace(StripWhitespace(s)) == StripWhitespace(s)
  {
    StripWhitespaceFixpoint(StripWhitespace(s));
  }

  // ---------------------------------------------------------------------------
  // Case
  // ---------------------------------------------------------------------------

  function LowerChar(c: char): char {
    if 'A' <= c <= 'Z' then (c as int + 32) as char else c
  }

  /** `strtolower`, which maps the ASCII capitals only. */
  function ToLower(s: string): (r: string)
    ensures |r| == |s|
    ensures forall i :: 0 <= i < |s| ==> r[i] == LowerChar(s[i])
  {
    if |s| == 0 then "" else [LowerChar(s[0])] + ToLower(s[1..])
  }

  // ---------------------------------------------------------------------------
  // explode / implode with a one-character delimiter
  // ---------------------------------------------------------------------------

  /** Number of occurrences of `c` in `s`. */
  function Occurrences(c: char, s: string): nat {
    if |s| == 0 then 0 else (if s[0] == c then 1 else 0) + Occurrences(c, s[1..])
  }

  /** `explode(sep, s)`: the pieces between the delimiters, always at least one. */
  function Explode(sep: char, s: string): (r: seq<string>)
    ensures |r| >= 1
  {
    if |s| == 0 then [""]
    else
      var rest := Explode(sep, s[1..]);
      if s[0] == sep then [""] + rest
      else [[s[0]] + rest[0]] + rest[1..]
  }

  /** `implode(sep, parts)`. */
  function Implode(sep: char, parts: seq<string>): string {
    if |parts| == 0 then ""
    else if |parts| == 1 then parts[0]
    else parts[0] + [sep] + Implode(sep, parts[1..])
  }

  /** There is one piece more than there are delimiters, and no piece holds one. */
  lemma {:induction false} ExplodePieces(sep: char, s: string)
    ensures |Explode(sep, s)| == Occurrences(sep, s) + 1
    ensures forall i :: 0 <= i < |Explode(sep, s)| ==> sep !in Explode(sep, s)[i]
  {
    if |s| > 0 {
      ExplodePieces(sep, s[1..]);
    }
  }

  /** Every character of a piece comes from the exploded string. */
  lemma {:induction false} ExplodeChars(sep: char, s: string, i: nat, c: char)
    requires i < |Explode(sep, s)| && c in Explode(sep, s)[i]
    ensures c in s
  {
    if |s| > 0 {
      var rest := Explode(sep, s[1..]);
      if s[0] == sep {
        if i > 0 {
          assert Explode(sep, s)[i] == rest[i - 1];
          ExplodeChars(sep, s[1..], i - 1, c);
        }
      } else if i > 0 {
        assert Explode(sep, s)[i] == rest[i];
        ExplodeChars(sep, s[1..], i, c);
      } else if c != s[0] {
        assert c in rest[0];
        ExplodeChars(sep, s[1..], 0, c);
      }
      assert c != s[0] ==> c in s[1..];
    }
  }

  /** A string without the delimiter explodes into itself. */
  lemma {:induction false} ExplodeNoDelimiter(sep: char, s: string)
    requires sep !in s
    ensures Explode(sep, s) == [s]
  {
    if |s| > 0 {
      ExplodeNoDelimiter(sep, s[1..]);
      assert [s[0]] + s[1..] == s;
    }
  }

  /** Joining the pieces again gives back the original string. */
  lemma {:induction false} ImplodeExplode(sep: char, s: string)
    ensures Implode(sep, Explode(sep, s)) == s
  {
    if |s| > 0 {
      var rest := Explode(sep, s[1..]);
      ImplodeExplode(sep, s[1..]);
      if s[0] == sep {
        assert Explode(sep, s) == [""] + rest;
        assert s == [sep] + s[1..];
      } else {
        assert s == [s[0]] + s[1..];
        if |rest| > 1 {
          assert Implode(sep, rest) == rest[0] + [sep] + Implode(sep, rest[1..]);
          assert ([s[0]] + rest[0]) + [sep] + Implode(sep, rest[1..]) == [s[0]] + Implode(sep, rest);
        }
      }
    }
  }

  /** Exploding `a + sep + t`, where `a` has no delimiter, splits off `a` first. */
  lemma {:induction false} ExplodeSplit(sep: char, a: string, t: string)
    requires sep !in a
    ensures Explode(sep, a + [sep] + t) == [a] + Explode(sep, t)
  {
    if |a| == 0 {
      assert a + [sep] + t == [sep] + t;
      assert ([sep] + t)[1..] == t;
    } else {
      ExplodeSplit(sep, a[1..], t);
      assert (a + [sep] + t)[1..] == a[1..] + [sep] + t;
      assert [a[0]] + a[1..] == a;
    }
  }

  /** Exploding joined pieces that hold no delimiter gives the pieces back. */
  lemma {:induction false} ExplodeImplode(sep: char, parts: seq<string>)
    requires |parts| >= 1
    requires forall i :: 0 <= i < |parts| ==> sep !in parts[i]
    ensures Explode(sep, Implode(sep, parts)) == parts
  {
    if |parts| == 1 {
      ExplodeNoDelimiter(sep, parts[0]);
    } else {
      ExplodeImplode(sep, parts[1..]);
      ExplodeSplit(sep, parts[0], Implode(sep, parts[1..]));
      assert [parts[0]] + parts[1..] == parts;
    }
  }

  // ---------------------------------------------------------------------------
  // str_replace of one character, basename
  // ---------------------------------------------------------------------------

  /** `str_replace(from, to, s)` for single characters. */
  function ReplaceChar(s: string, from: char, to: char): (r: string)
    ensures |r| == |s|
    ensures forall i :: 0 <= i < |s| ==> r[i] == (if s[i] == from then to else s[i])
  {
    if |s| == 0 then "" else [if s[0] == from then to else s[0]] + ReplaceChar(s[1..], from, to)
  }

  /** The part of `s` after the last `c` (all of `s` when there is none). */
  function AfterLast(c: char, s: string): (r: string)
    ensures c !in r
  {
    if c !in s then s else AfterLast(c, s[1..])
  }

  /** `s` without its trailing `c` characters. */
  function TrimTrailing(c: char, s: string): (r: string)
    ensures |r| <= |s|
    ensures |r| > 0 ==> r[|r| - 1] != c
  {
    if |s| > 0 && s[|s| - 1] == c then TrimTrailing(c, s[..|s| - 1]) else s
  }

  /** `basename(path)` on a '/'-separated path: trailing slashes are ignored. */
  function Basename(path: string): (r: string)
    ensures '/' !in r
  {
    AfterLast('/', TrimTrailing('/', path))
  }

  /** The text after the last delimiter is the last piece of `explode`. */
  lemma {:induction false} AfterLastIsLastPiece(sep: char, s: string)
    ensures AfterLast(sep, s) == Explode(sep, s)[|Explode(sep, s)| - 1]
  {
    if sep !in s {
      ExplodeNoDelimiter(sep, s);
    } else {
      var rest := Explode(sep, s[1..]);
      AfterLastIsLastPiece(sep, s[1..]);
      if s[0] != sep {
        assert sep in s[1..] by {
          var i :| 0 <= i < |s| && s[i] == sep;
          assert s[1..][i - 1] == sep;
        }
        ExplodePieces(sep, s[1..]);
        OccurrencesZero(sep, s[1..]);
        assert |rest| > 1;
      }
    }
  }


  lemma {:induction false} OccurrencesZero(c: char, s: string)
    ensures Occurrences(c, s) == 0 <==> c !in s
  {
    if |s| > 0 {
      OccurrencesZero(c, s[1..]);
      assert s == [s[0]] + s[1..];
    }
  }

  /** Replacing one delimiter by another does not move what follows the last one. */
  lemma {:induction false} AfterLastReplaced(s: string, from: char, to: char)
    requires to !in s && from != to
    ensures AfterLast(to, ReplaceChar(s, from, to)) == AfterLast(from, s)
  {
    var t := ReplaceChar(s, from, to);
    assert to in t <==> from in s by {
      if from in s {
        var i :| 0 <= i < |s| && s[i] == from;
        assert t[i] == to;
      }
      if to in t {
        var i :| 0 <= i < |t| && t[i] == to;
        assert s[i] == from;
      }
    }
    if from in s {
      assert t[1..] == ReplaceChar(s[1..], from, to);
      AfterLastReplaced(s[1..], from, to);
    } else {
      assert forall i :: 0 <= i < |s| ==> t[i] == s[i];
      assert t == s;
    }
  }

  // ---------------------------------------------------------------------------
  // Integers as strings
  // ---------------------------------------------------------------------------

  predicate IsDigit(c: char) { '0' <= c <= '9' }

  function DigitChar(d: nat): char
    requires d < 10
  {
    ('0' as int + d) as char
  }

  function NatToString(n: nat): (r: string)
    ensures |r| >= 1
    ensures forall i :: 0 <= i < |r| ==> IsDigit(r[i])
  {
    if n < 10 then [DigitChar(n)] else NatToString(n / 10) + [DigitChar(n % 10)]
  }

  /** PHP's decimal form of an integer, as `(string)$i` writes it. */
  function IntToString(i: int): (r: string)
    ensures |r| >= 1
  {
    if i < 0 then "-" + NatToString(-i) else NatToString(i)
  }

  /** The value of a string of decimal digits. */
  function DigitsValue(s: string): nat
    requires AllDigits(s)
  {
    if |s| == 0 then 0
    else
      assert IsDigit(s[|s| - 1]);
      DigitsValue(s[..|s| - 1]) * 10 + (s[|s| - 1] as int - '0' as int)
  }

  predicate AllDigits(s: string) {
    forall i :: 0 <= i < |s| ==> IsDigit(s[i])
  }

  /** A digit string without a superfluous leading zero. */
  predicate IsCanonicalDigits(s: string) {
    |s| >= 1 && AllDigits(s) && (s[0] != '0' || |s| == 1)
  }

  const PHP_INT_MAX: int := 0x7FFF_FFFF_FFFF_FFFF

  /**
   * A string key that PHP stores as an integer key: a decimal integer in
   * canonical form ("0", "17", "-3", but not "007", "-0" or "+1") within the
   * 64-bit range.
   */
  predicate IsIntegerKey(s: string) {
    if |s| >= 2 && s[0] == '-' then
      IsCanonicalDigits(s[1..]) && s[1..] != "0" && DigitsValue(s[1..]) <= PHP_INT_MAX + 1
    else
      IsCanonicalDigits(s) && DigitsValue(s) <= PHP_INT_MAX
  }

  /** The integer an integer-like key stands for. */
  function IntegerKeyValue(s: string): int
    requires IsIntegerKey(s)
  {
    if |s| >= 2 && s[0] == '-' then -(DigitsValue(s[1..]) as int) else DigitsValue(s)
  }

  // ---------------------------------------------------------------------------
  // is_numeric on strings
  // ---------------------------------------------------------------------------

  /** Number of leading decimal digits. */
  function DigitRun(s: string): (n: nat)
    ensures n <= |s|
    ensures forall i :: 0 <= i < n ==> IsDigit(s[i])
    ensures n < |s| ==> !IsDigit(s[n])
  {
    if |s| > 0 && IsDigit(s[0]) then 1 + DigitRun(s[1..]) else 0
  }

  function TrimLeadingWhitespace(s: string): (r: string)
    ensures |r| <= |s|
  {
    if |s| > 0 && IsWhitespace(s[0]) then TrimLeadingWhitespace(s[1..]) else s
  }

  function TrimTrailingWhitespace(s: string): (r: string)
    ensures |r| <= |s|
  {
    if |s| > 0 && IsWhitespace(s[|s| - 1]) then TrimTrailingWhitespace(s[..|s| - 1]) else s
  }

  function DropSign(s: string): string {
    if |s| > 0 && (s[0] == '+' || s[0] == '-') then s[1..] else s
  }

  /** An exponent tail after the `e`/`E`: an optional sign and at least one digit. */
  predicate IsExponentTail(s: string) {
    var t := DropSign(s);
    |t| >= 1 && AllDigits(t)
  }

  /**
   * `is_numeric($s)` for a string (PHP 8): optional surrounding whitespace,
   * an optional sign, digits with an optional decimal point (at least one
   * digit in all), and an optional exponent.
   */
  predicate IsNumericString(s: string) {
    var u := DropSign(TrimTrailingWhitespace(TrimLeadingWhitespace(s)));
    var a := DigitRun(u);
    var v := u[a..];
    var dot := |v| > 0 && v[0] == '.';
    var b := if dot then DigitRun(v[1..]) else 0;
    var w := if dot then v[1 + b..] else v;
    a + b > 0 && (w == "" || ((w[0] == 'e' || w[0] == 'E') && IsExponentTail(w[1..])))
  }
}
