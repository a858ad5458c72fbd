/** String primitives that lindeb borrows from Go's `strings`/`strconv`
    packages and from JavaScript's `String.prototype`: single-character
    split and join, whitespace trimming (the two languages disagree on
    what whitespace is), ASCII lower-casing, and decimal conversion. */
module Text {
  import opened Wrappers

  predicate IsDigit(c: char) { '0' <= c <= '9' }

  predicate IsAsciiLetter(c: char) { 'a' <= c <= 'z' || 'A' <= c <= 'Z' }

  predicate AllDigits(s: string) { forall i :: 0 <= i < |s| ==> IsDigit(s[i]) }

  predicate AllLetters(s: string) { forall i :: 0 <= i < |s| ==> IsAsciiLetter(s[i]) }

  /** Go's `strings.HasPrefix` and JavaScript's `startsWith`. */
  predicate HasPrefix(s: string, p: string) { |p| <= |s| && s[..|p|] == p }

  /** Number of occurrences of `c` in `s`. */
  function Count(s: string, c: char): nat {
    if |s| == 0 then 0 else (if s[0] == c then 1 else 0) + Count(s[1..], c)
  }

  lemma {:induction false} CountZero(s: string, c: char)
    ensures Count(s, c) == 0 <==> c !in s
  {
    if |s| > 0 {
      CountZero(s[1..], c);
      assert s == [s[0]] + s[1..];
    }
  }

  lemma {:induction false} CountAppend(a: string, b: string, c: char)
    ensures Count(a + b, c) == Count(a, c) + Count(b, c)
  {
    if |a| == 0 {
      assert a + b == b;
    } else {
      assert (a + b)[1..] == a[1..] + b;
      CountAppend(a[1..], b, c);
    }
  }

  // ---------------------------------------------------------------------
  // Split and join on one separator character
  // ---------------------------------------------------------------------

  /** Go's `strings.Split(s, sep)` and JavaScript's `s.split(sep)` for a
      one-character separator: the pieces between separators, so that an
      empty string gives one empty piece. */
  function Split(s: string, sep: char): (parts: seq<string>)
    ensures |parts| == Count(s, sep) + 1
    ensures forall i :: 0 <= i < |parts| ==> sep !in parts[i]
    decreases |s|
  {
    if |s| == 0 then [""]
    else
      var rest := Split(s[1..], sep);
      if s[0] == sep then [""] + rest
      else [[s[0]] + rest[0]] + rest[1..]
  }

  /** Go's `strings.Join` and JavaScript's `Array.prototype.join`. */
  function Join(parts: seq<string>, sep: string): string {
    if |parts| == 0 then ""
    else if |parts| == 1 then parts[0]
    else parts[0] + sep + Join(parts[1..], sep)
  }

  /** Joining the pieces with the separator gives back the string. */
  lemma {:induction false} JoinSplit(s: string, sep: char)
    ensures Join(Split(s, sep), [sep]) == s
    decreases |s|
  {
    if |s| > 0 {
      var rest := Split(s[1..], sep);
      JoinSplit(s[1..], sep);
      if s[0] == sep {
        assert Split(s, sep) == [""] + rest;
        assert ([""] + rest)[1..] == rest;
      } else {
        var parts := [[s[0]] + rest[0]] + rest[1..];
        assert Split(s, sep) == parts;
        if |rest| == 1 {
          assert Join(rest, [sep]) == rest[0];
        } else {
          assert parts[1..] == rest[1..];
          assert Join(rest, [sep]) == rest[0] + [sep] + Join(rest[1..], [sep]);
        }
      }
    }
  }

  /** A string with no separator is a single piece. */
  lemma SplitNoSep(s: string, sep: char)
    requires sep !in s
    ensures Split(s, sep) == [s]
  {
    CountZero(s, sep);
    JoinSplit(s, sep);
  }

  /** Splitting distributes over a separator. */
  lemma {:induction false} SplitAppend(a: string, b: string, sep: char)
    ensures Split(a + [sep] + b, sep) == Split(a, sep) + Split(b, sep)
    decreases |a|
  {
    var s := a + [sep] + b;
    if |a| == 0 {
      assert s[1..] == b;
    } else {
      assert s[1..] == a[1..] + [sep] + b;
      SplitAppend(a[1..], b, sep);
    }
  }

  /** Splitting separator-free pieces joined by the separator restores them. */
  lemma {:induction false} SplitJoin(parts: seq<string>, sep: char)
    requires |parts| >= 1
    requires forall i :: 0 <= i < |parts| ==> sep !in parts[i]
    ensures Split(Join(parts, [sep]), sep) == parts
    decreases |parts|
  {
    if |parts| == 1 {
      SplitNoSep(parts[0], sep);
    } else {
      SplitJoin(parts[1..], sep);
      SplitAppend(parts[0], Join(parts[1..], [sep]), sep);
      SplitNoSep(parts[0], sep);
      assert parts == [parts[0]] + parts[1..];
    }
  }

  // ---------------------------------------------------------------------
  // Whitespace and trimming
  // ---------------------------------------------------------------------

  /** ECMAScript WhiteSpace and LineTerminator code points, the set that
      `String.prototype.trim` removes. */
  predicate IsJsSpace(c: char) {
    var n := c as int;
    n == 0x09 || n == 0x0A || n == 0x0B || n == 0x0C || n == 0x0D || n == 0x20
    || n == 0xA0 || n == 0x1680 || (0x2000 <= n <= 0x200A) || n == 0x2028
    || n == 0x2029 || n == 0x202F || n == 0x205F || n == 0x3000 || n == 0xFEFF
  }

  /** Go's `unicode.IsSpace`, the set that `strings.TrimSpace` removes. */
  predicate IsGoSpace(c: char) {
    var n := c as int;
    n == 0x09 || n == 0x0A || n == 0x0B || n == 0x0C || n == 0x0D || n == 0x20
    || n == 0x85 || n == 0xA0 || n == 0x1680 || (0x2000 <= n <= 0x200A)
    || n == 0x2028 || n == 0x2029 || n == 0x202F || n == 0x205F || n == 0x3000
  }

  /** Drops the leading characters satisfying `isSpace`. */
  function TrimStart(s: string, isSpace: char -> bool): (r: string)
    ensures |r| <= |s| && r == s[|s| - |r|..]
    ensures forall i :: 0 <= i < |s| - |r| ==> isSpace(s[i])
    ensures |r| > 0 ==> !isSpace(r[0])
    decreases |s|
  {
    if |s| > 0 && isSpace(s[0]) then TrimStart(s[1..], isSpace) else s
  }

  /** Drops the trailing characters satisfying `isSpace`. */
  function TrimEnd(s: string, isSpace: char -> bool): (r: string)
    ensures |r| <= |s| && r == s[..|r|]
    ensures forall i :: |r| <= i < |s| ==> isSpace(s[i])
    ensures |r| > 0 ==> !isSpace(r[|r| - 1])
    decreases |s|
  {
    if |s| > 0 && isSpace(s[|s| - 1]) then TrimEnd(s[..|s| - 1], isSpace) else s
  }

  function Trim(s: string, isSpace: char -> bool): string {
    TrimEnd(TrimStart(s, isSpace), isSpace)
  }

  /** A trimmed string has no space at either end, and trimming it again
      changes nothing. */
  predicate IsTrimmed(s: string, isSpace: char -> bool) {
    |s| == 0 || (!isSpace(s[0]) && !isSpace(s[|s| - 1]))
  }

  lemma TrimIsTrimmed(s: string, isSpace: char -> bool)
    ensures IsTrimmed(Trim(s, isSpace), isSpace)
  {
    var t := TrimStart(s, isSpace);
    var r := TrimEnd(t, isSpace);
    if |r| > 0 {
      assert r[0] == t[0];
    }
  }

  lemma TrimOfTrimmed(s: string, isSpace: char -> bool)
    requires IsTrimmed(s, isSpace)
    ensures Trim(s, isSpace) == s
  {
  }

  /** Trimming is empty exactly when every character is a space. */
  lemma TrimEmpty(s: string, isSpace: char -> bool)
    ensures Trim(s, isSpace) == "" <==> forall i :: 0 <= i < |s| ==> isSpace(s[i])
  {
  }

  /** Spaces in front of a trimmed, non-empty string are all that trimming
      removes. */
  lemma {:induction false} TrimSpacesThen(w: string, t: string, isSpace: char -> bool)
    requires forall i :: 0 <= i < |w| ==> isSpace(w[i])
    requires |t| > 0 && IsTrimmed(t, isSpace)
    ensures Trim(w + t, isSpace) == t
    decreases |w|
  {
    if |w| == 0 {
      assert w + t == t;
    } else {
      assert (w + t)[1..] == w[1..] + t;
      TrimSpacesThen(w[1..], t, isSpace);
    }
  }

  /** The number of bytes `c` takes in UTF-8. */
  function Utf8Width(c: char): nat {
    var n := c as int;
    if n < 0x80 then 1 else if n < 0x800 then 2 else if n < 0x1_0000 then 3 else 4
  }

  /** Go's `len` of a string: its length in UTF-8 bytes. */
  function Utf8Length(s: string): (n: nat)
    ensures |s| <= n <= 4 * |s|
  {
    if |s| == 0 then 0 else Utf8Width(s[0]) + Utf8Length(s[1..])
  }

  /** For ASCII text the byte length is the character count. */
  lemma {:induction false} Utf8LengthAscii(s: string)
    requires forall i :: 0 <= i < |s| ==> s[i] as int < 0x80
    ensures Utf8Length(s) == |s|
  {
    if |s| > 0 {
      Utf8LengthAscii(s[1..]);
    }
  }

  // ---------------------------------------------------------------------
  // Case
  // ---------------------------------------------------------------------

  const DottedCapitalI: char := '\U{0130}'
  const KelvinSign: char := '\U{212A}'

  /** `unicode.ToLower` on the characters whose lower case is ASCII: the
      capital letters, the dotted capital I and the Kelvin sign. Every
      other character is kept. */
  function LowerChar(c: char): char {
    if 'A' <= c <= 'Z' then (c as int + 32) as char
    else if c == DottedCapitalI then 'i'
    else if c == KelvinSign then 'k'
    else c
  }

  /** A character lower-cases to a given ASCII character that is not a
      capital letter exactly when it is that character, its capital, or
      one of the two non-ASCII characters Go's tables send there. */
  lemma LowerToAscii(c: char, x: char)
    requires x as int < 128 && !('A' <= x <= 'Z')
    ensures LowerChar(c) == x <==>
              c == x || ('a' <= x <= 'z' && c as int == x as int - 32)
              || (x == 'i' && c == DottedCapitalI) || (x == 'k' && c == KelvinSign)
  {
  }

  /** `strings.ToLower`, character by character (see `LowerChar`). */
  function ToLower(s: string): (r: string)
    ensures |r| == |s|
    ensures forall i :: 0 <= i < |s| ==> r[i] == LowerChar(s[i])
  {
    seq(|s|, i requires 0 <= i < |s| => LowerChar(s[i]))
  }

  /** Lower-casing twice is lower-casing once. */
  lemma ToLowerIdempotent(s: string)
    ensures ToLower(ToLower(s)) == ToLower(s)
  {
    var l := ToLower(s);
    var ll := ToLower(l);
    forall i | 0 <= i < |s|
      ensures ll[i] == l[i]
    {
      assert ll[i] == LowerChar(l[i]) && l[i] == LowerChar(s[i]);
    }
  }

  // ---------------------------------------------------------------------
  // Decimal numbers
  // ---------------------------------------------------------------------

  const MaxInt64 := 0x7FFF_FFFF_FFFF_FFFF
  const MinInt64 := -0x8000_0000_0000_0000

  function DigitChar(d: nat): char
    requires d < 10
  {
    ('0' as int + d) as char
  }

  /** The value of a string of decimal digits, most significant first. */
  function DecimalValue(s: string): nat
    requires AllDigits(s)
  {
    if |s| == 0 then 0
    else DecimalValue(s[..|s| - 1]) * 10 + (s[|s| - 1] as int - '0' as int)
  }

  /** The shortest decimal spelling of `n`, as Go's `strconv.Itoa` and
      JavaScript's template strings print a non-negative integer. */
  function NatToDecimal(n: nat): (s: string)
    ensures |s| >= 1 && AllDigits(s)
  {
    if n < 10 then [DigitChar(n)] else NatToDecimal(n / 10) + [DigitChar(n % 10)]
  }

  /** A signed integer in decimal, with a leading '-' when negative. */
  function IntToDecimal(i: int): string {
    if i < 0 then "-" + NatToDecimal(-i) else NatToDecimal(i)
  }

  lemma {:induction false} DecimalRoundTrip(n: nat)
    ensures DecimalValue(NatToDecimal(n)) == n
  {
    if n >= 10 {
      var s := NatToDecimal(n);
      assert s[..|s| - 1] == NatToDecimal(n / 10);
      DecimalRoundTrip(n / 10);
    }
  }

  /** Go's `strconv.Atoi` on a 64-bit platform: an optional sign, then at
      least one decimal digit, and a value that fits in 64 bits; anything
      else, overflow included, is an error. */
  function Atoi(s: string): (r: Option<int>)
    ensures r.Some? ==> MinInt64 <= r.value <= MaxInt64
    ensures |s| > 0 && AllDigits(s) ==>
              (r.Some? <==> DecimalValue(s) <= MaxInt64)
              && (r.Some? ==> r.value == DecimalValue(s))
    ensures |s| == 0 ==> r.None?
  {
    if |s| == 0 then None
    else
      var signed := s[0] == '-' || s[0] == '+';
      var digits := if signed then s[1..] else s;
      if |digits| == 0 || !AllDigits(digits) then None
      else
        var d: int := DecimalValue(digits);
        var v := if s[0] == '-' then -d else d;
        if MinInt64 <= v <= MaxInt64 then Some(v) else None
  }

  /** Every 64-bit integer printed in decimal parses back to itself. */
  lemma AtoiRoundTrip(i: int)
    requires MinInt64 <= i <= MaxInt64
    ensures Atoi(IntToDecimal(i)) == Some(i)
  {
    var n := if i < 0 then -i else i;
    DecimalRoundTrip(n);
    var s := IntToDecimal(i);
    if i < 0 {
      assert s[1..] == NatToDecimal(n);
    }
  }
}
