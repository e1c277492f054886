/** String primitives of the two runtimes the system is written for (Python's
    `str` methods and JavaScript's string helpers), over `string` = `seq<char>`
    where a `char` is one Unicode scalar value, as in both languages' length and
    index operations on the inputs the model uses. */
module Text {
  import opened Common

  type byte = x: int | 0 <= x < 256

  // ---------------------------------------------------------------------------
  // Character classes

  /** Python `str.isspace()`: the characters `str.strip()` and `str.split()` treat
      as whitespace. */
  predicate IsSpace(c: char) {
    var n := c as int;
    n == 0x20 || (0x09 <= n <= 0x0D) || (0x1C <= n <= 0x1F) || n == 0x85 || n == 0xA0
    || n == 0x1680 || (0x2000 <= n <= 0x200A) || n == 0x2028 || n == 0x2029
    || n == 0x202F || n == 0x205F || n == 0x3000
  }

  /** The characters at which Python `str.splitlines()` ends a line. (`\r\n` is one
      boundary there; splitting at each of its two characters only adds an empty
      line, which every caller in the model discards.) */
  predicate IsLineBoundary(c: char) {
    var n := c as int;
    (0x0A <= n <= 0x0D) || (0x1C <= n <= 0x1E) || n == 0x85 || n == 0x2028 || n == 0x2029
  }

  lemma LineBoundaryIsSpace(c: char)
    requires IsLineBoundary(c)
    ensures IsSpace(c)
  {}

  predicate IsDigit(c: char) { '0' <= c <= '9' }

  function DigitValue(c: char): (d: nat)
    requires IsDigit(c)
    ensures d < 10
  {
    (c as int) - ('0' as int)
  }

  function DigitChar(d: nat): (c: char)
    requires d < 10
    ensures IsDigit(c) && DigitValue(c) == d
  {
    ((d + '0' as int) as char)
  }

  /** ASCII lower-casing of one character. */
  function LowerChar(c: char): (r: char)
    ensures 'A' <= c <= 'Z' ==> r as int == c as int + 32
    ensures !('A' <= c <= 'Z') ==> r == c
  {
    if 'A' <= c <= 'Z' then ((c as int) + 32) as char else c
  }

  function Lower(s: string): (r: string)
    ensures |r| == |s|
    ensures forall i :: 0 <= i < |s| ==> r[i] == LowerChar(s[i])
  {
    if |s| == 0 then [] else [LowerChar(s[0])] + Lower(s[1..])
  }

  /** Lower-casing twice is lower-casing once. */
  lemma LowerIdempotent(s: string)
    ensures Lower(Lower(s)) == Lower(s)
  {}

  lemma LowerConcat(a: string, b: string)
    ensures Lower(a + b) == Lower(a) + Lower(b)
  {}

  // ---------------------------------------------------------------------------
  // Searching

  predicate StartsWith(s: string, prefix: string) {
    prefix <= s
  }

  /** `r` occurs in `s` starting at index `i`. */
  predicate SliceAt(s: string, r: string, i: int) {
    0 <= i && i + |r| <= |s| && s[i..i + |r|] == r
  }

  /** Python's `sub in s`. */
  predicate Contains(s: string, sub: string)
    decreases |s|
  {
    |sub| <= |s| && (s[..|sub|] == sub || Contains(s[1..], sub))
  }

  /** `Contains` holds exactly when `sub` occurs at some position of `s`. */
  lemma {:induction false} ContainsAt(s: string, sub: string)
    ensures Contains(s, sub) <==> exists i :: SliceAt(s, sub, i)
    decreases |s|
  {
    if |sub| <= |s| && s[..|sub|] == sub {
      assert SliceAt(s, sub, 0);
    } else if |sub| <= |s| {
      ContainsAt(s[1..], sub);
      if Contains(s[1..], sub) {
        var i :| SliceAt(s[1..], sub, i);
        assert s[i + 1..i + 1 + |sub|] == s[1..][i..i + |sub|];
        assert SliceAt(s, sub, i + 1);
      }
      if exists i :: SliceAt(s, sub, i) {
        var i :| SliceAt(s, sub, i);
        assert i != 0;
        assert s[1..][i - 1..i - 1 + |sub|] == s[i..i + |sub|];
        assert SliceAt(s[1..], sub, i - 1);
      }
    }
  }

  /** Text found in `a` is still found once more text is appended. */
  lemma ContainsExtend(a: string, b: string, sub: string)
    requires Contains(a, sub)
    ensures Contains(a + b, sub)
  {
    ContainsAt(a, sub);
    var i :| SliceAt(a, sub, i);
    assert (a + b)[i..i + |sub|] == a[i..i + |sub|];
    assert SliceAt(a + b, sub, i);
    ContainsAt(a + b, sub);
  }

  // ---------------------------------------------------------------------------
  // Splitting and joining

  /** Index of the first character of `s` satisfying `sep`. */
  function IndexWhere(s: string, sep: char -> bool): (i: nat)
    requires exists k :: 0 <= k < |s| && sep(s[k])
    ensures i < |s| && sep(s[i])
    ensures forall k :: 0 <= k < i ==> !sep(s[k])
  {
    if sep(s[0]) then 0
    else
      assert exists k :: 0 <= k < |s[1..]| && sep(s[1..][k]) by {
        var k :| 0 <= k < |s| && sep(s[k]);
        assert k != 0 && s[1..][k - 1] == s[k];
      }
      1 + IndexWhere(s[1..], sep)
  }

  /** Python's `s.split(c)` when `sep` holds of exactly one character `c`:
      the maximal separator-free pieces, always at least one (possibly empty). */
  function SplitWhere(s: string, sep: char -> bool): (r: seq<string>)
    ensures |r| >= 1
    ensures forall i, k :: 0 <= i < |r| && 0 <= k < |r[i]| ==> !sep(r[i][k])
    decreases |s|
  {
    if forall k :: 0 <= k < |s| ==> !sep(s[k]) then [s]
    else
      var i := IndexWhere(s, sep);
      [s[..i]] + SplitWhere(s[i + 1..], sep)
  }

  /** Python's `sep.join(parts)`. */
  function Join(sep: string, parts: seq<string>): string
  {
    if |parts| == 0 then ""
    else if |parts| == 1 then parts[0]
    else parts[0] + sep + Join(sep, parts[1..])
  }

  /** Joining the pieces back with the separator restores the string. */
  lemma {:induction false} JoinSplit(s: string, sep: char -> bool, c: char)
    requires forall k :: 0 <= k < |s| && sep(s[k]) ==> s[k] == c
    ensures Join([c], SplitWhere(s, sep)) == s
    decreases |s|
  {
    if HasSep(s, sep) {
      var i := SplitStep(s, sep);
      SuffixChars(s, i + 1, sep, c);
      JoinSplit(s[i + 1..], sep, c);
      JoinCons(s[..i], [c], SplitWhere(s[i + 1..], sep));
      SplitAround(s, i);
    } else {
      NoSepSplit(s, sep);
    }
  }

  predicate HasSep(s: string, sep: char -> bool) {
    exists k :: 0 <= k < |s| && sep(s[k])
  }

  /** `SplitWhere` cuts at the first separator. */
  lemma SplitStep(s: string, sep: char -> bool) returns (i: nat)
    requires HasSep(s, sep)
    ensures i < |s| && sep(s[i])
    ensures SplitWhere(s, sep) == [s[..i]] + SplitWhere(s[i + 1..], sep)
  {
    i := IndexWhere(s, sep);
  }

  /** A string without separators is one piece. */
  lemma NoSepSplit(s: string, sep: char -> bool)
    requires !HasSep(s, sep)
    ensures SplitWhere(s, sep) == [s]
  {
  }

  /** What holds of every separator in a string holds in its suffixes. */
  lemma SuffixChars(s: string, j: nat, sep: char -> bool, c: char)
    requires j <= |s|
    requires forall k :: 0 <= k < |s| && sep(s[k]) ==> s[k] == c
    ensures forall k :: 0 <= k < |s[j..]| && sep(s[j..][k]) ==> s[j..][k] == c
  {
    forall k | 0 <= k < |s[j..]| && sep(s[j..][k])
      ensures s[j..][k] == c
    {
      assert s[j..][k] == s[j + k];
    }
  }

  /** A string is its part before `i`, its character at `i`, and the rest. */
  lemma SplitAround(s: string, i: nat)
    requires i < |s|
    ensures s == s[..i] + [s[i]] + s[i + 1..]
  {
  }

  /** `Join` on a list of at least two pieces. */
  lemma JoinCons(x: string, sep: string, rest: seq<string>)
    requires |rest| >= 1
    ensures Join(sep, [x] + rest) == x + sep + Join(sep, rest)
  {
    assert ([x] + rest)[1..] == rest;
  }

  /** One step of `SplitJoin`: a separator-free head followed by a separator. */
  lemma SplitAfterHead(x: string, c: char, y: string, sep: char -> bool)
    requires sep(c)
    requires forall k :: 0 <= k < |x| ==> !sep(x[k])
    ensures SplitWhere(x + [c] + y, sep) == [x] + SplitWhere(y, sep)
  {
    var s := x + [c] + y;
    assert s[|x|] == c;
    var i := IndexWhere(s, sep);
    assert i == |x|;
    assert s[..i] == x;
    assert s[i + 1..] == y;
  }

  /** Splitting a join of separator-free pieces gives the pieces back. */
  lemma {:induction false} SplitJoin(parts: seq<string>, sep: char -> bool, c: char)
    requires sep(c) && |parts| >= 1
    requires forall i, k :: 0 <= i < |parts| && 0 <= k < |parts[i]| ==> !sep(parts[i][k])
    ensures SplitWhere(Join([c], parts), sep) == parts
    decreases |parts|
  {
    if |parts| > 1 {
      var rest := Join([c], parts[1..]);
      assert Join([c], parts) == parts[0] + [c] + rest;
      SplitAfterHead(parts[0], c, rest, sep);
      SplitJoin(parts[1..], sep, c);
      assert parts == [parts[0]] + parts[1..];
    }
  }

  predicate IsDollar(c: char) { c == '$' }
  predicate IsDash(c: char) { c == '-' }

  /** Python `str.splitlines()` (see `IsLineBoundary`). */
  function Lines(s: string): (r: seq<string>)
    ensures forall i, k :: 0 <= i < |r| && 0 <= k < |r[i]| ==> !IsLineBoundary(r[i][k])
  {
    SplitWhere(s, IsLineBoundary)
  }

  // ---------------------------------------------------------------------------
  // Stripping

  function DropWhile(s: string, p: char -> bool): (r: string)
    ensures |r| <= |s| && r == s[|s| - |r|..]
    ensures forall k :: 0 <= k < |s| - |r| ==> p(s[k])
    ensures |r| > 0 ==> !p(r[0])
  {
    if |s| > 0 && p(s[0]) then DropWhile(s[1..], p) else s
  }

  function DropWhileEnd(s: string, p: char -> bool): (r: string)
    ensures |r| <= |s| && r == s[..|r|]
    ensures forall k :: |r| <= k < |s| ==> p(s[k])
    ensures |r| > 0 ==> !p(r[|r| - 1])
  {
    if |s| > 0 && p(s[|s| - 1]) then DropWhileEnd(s[..|s| - 1], p) else s
  }

  /** Removes the longest prefix and suffix of characters satisfying `p`: Python's
      `s.strip()` for `IsSpace` and `s.strip("*")` for `IsStar`. */
  function StripWhere(s: string, p: char -> bool): (r: string)
    ensures exists i :: SliceAt(s, r, i)
    ensures |r| > 0 ==> !p(r[0]) && !p(r[|r| - 1])
  {
    var a := DropWhile(s, p);
    var b := DropWhileEnd(a, p);
    assert SliceAt(s, b, |s| - |a|) by {
      assert s[|s| - |a|..|s| - |a| + |b|] == a[..|b|];
    }
    b
  }

  function Strip(s: string): string { StripWhere(s, IsSpace) }

  predicate IsStar(c: char) { c == '*' }

  /** `len(s.split())`: the number of maximal runs of non-whitespace. */
  function WordCount(s: string): nat { WordsAfter(s, true) }

  function WordsAfter(s: string, afterSpace: bool): nat
  {
    if |s| == 0 then 0
    else (if afterSpace && !IsSpace(s[0]) then 1 else 0) + WordsAfter(s[1..], IsSpace(s[0]))
  }

  // ---------------------------------------------------------------------------
  // Decimal numbers

  /** Python `str(n)` / JavaScript `String(n)` for a natural number. */
  function NatToString(n: nat): (r: string)
    ensures |r| >= 1
    ensures forall i :: 0 <= i < |r| ==> IsDigit(r[i])
  {
    if n < 10 then [DigitChar(n)] else NatToString(n / 10) + [DigitChar(n % 10)]
  }

  /** JavaScript `String(n)` for an integer: a minus sign before the digits of a
      negative one. */
  function IntToString(n: int): (r: string)
    ensures 0 <= n ==> r == NatToString(n)
    ensures n < 0 ==> r == "-" + NatToString(-n)
  {
    if n >= 0 then NatToString(n) else "-" + NatToString(-n)
  }

  predicate AllDigits(s: string) {
    forall i :: 0 <= i < |s| ==> IsDigit(s[i])
  }

  /** The value of a string of decimal digits (0 for the empty string). */
  function DigitsValue(s: string): nat
    requires AllDigits(s)
  {
    if |s| == 0 then 0 else 10 * DigitsValue(s[..|s| - 1]) + DigitValue(s[|s| - 1])
  }

  lemma {:induction false} DigitsValueOfNatToString(n: nat)
    ensures DigitsValue(NatToString(n)) == n
  {
    if n >= 10 {
      var s := NatToString(n / 10) + [DigitChar(n % 10)];
      assert s[..|s| - 1] == NatToString(n / 10);
      DigitsValueOfNatToString(n / 10);
    }
  }

  /** The value of two digits. */
  lemma DigitsValuePair(a: char, b: char)
    requires IsDigit(a) && IsDigit(b)
    ensures AllDigits([a, b]) && DigitsValue([a, b]) == 10 * DigitValue(a) + DigitValue(b)
  {
    assert [a, b][..1] == [a];
    assert [a][..0] == [];
    assert DigitsValue([a]) == DigitValue(a);
  }

  lemma NatToStringSmall(n: nat)
    requires n < 10
    ensures NatToString(n) == [DigitChar(n)]
  {}

  /** JavaScript `Number(s)` when the result is a whole number: surrounding
      whitespace, an optional sign and ASCII digits, or nothing at all (which is
      0). `None` stands for NaN, and also for the decimal, exponent and
      hexadecimal forms the model does not read. */
  function JsNumber(s: string): (r: Option<int>)
    ensures AllDigits(Strip(s)) ==> r == Some(DigitsValue(Strip(s)))
  {
    var t := Strip(s);
    if AllDigits(t) then Some(DigitsValue(t))
    else if (t[0] == '+' || t[0] == '-') && |t| > 1 && AllDigits(t[1..]) then
      var v: int := DigitsValue(t[1..]);
      Some(if t[0] == '-' then -v else v)
    else None
  }

  /** Digits carry no surrounding whitespace. */
  lemma StripDigits(s: string)
    requires |s| > 0 && AllDigits(s)
    ensures Strip(s) == s
  {
    assert !IsSpace(s[0]) && !IsSpace(s[|s| - 1]);
  }

  /** `Number(String(n))` is `n`. */
  lemma JsNumberOfNatToString(n: nat)
    ensures JsNumber(NatToString(n)) == Some(n)
  {
    StripDigits(NatToString(n));
    DigitsValueOfNatToString(n);
  }

  /** JavaScript `s.padStart(2, "0")`. */
  function PadStart2(s: string): (r: string)
    ensures |r| == if |s| >= 2 then |s| else 2
  {
    if |s| >= 2 then s else if |s| == 1 then "0" + s else "00"
  }

  // ---------------------------------------------------------------------------
  // Hexadecimal

  function HexDigit(d: nat): (c: char)
    requires d < 16
  {
    if d < 10 then DigitChar(d) else ((d - 10 + 'a' as int) as char)
  }

  /** Value of a hexadecimal digit, either case, as `bytes.fromhex` reads it. */
  function HexValue(c: char): Option<nat>
  {
    if '0' <= c <= '9' then Some(c as int - '0' as int)
    else if 'a' <= c <= 'f' then Some(c as int - 'a' as int + 10)
    else if 'A' <= c <= 'F' then Some(c as int - 'A' as int + 10)
    else None
  }

  lemma HexValueOfHexDigit(d: nat)
    requires d < 16
    ensures HexValue(HexDigit(d)) == Some(d)
  {}

  /** Python `bytes.hex()`: two lower-case digits per byte. */
  function ToHex(b: seq<byte>): (r: string)
    ensures |r| == 2 * |b|
  {
    if |b| == 0 then "" else [HexDigit(b[0] / 16), HexDigit(b[0] % 16)] + ToHex(b[1..])
  }

  /** ASCII whitespace that `bytes.fromhex` skips before each digit pair. */
  predicate IsAsciiSpace(c: char) {
    var n := c as int;
    n == 0x20 || (0x09 <= n <= 0x0D)
  }

  /** Python `bytes.fromhex(s)`; `None` where Python raises ValueError. */
  function FromHex(s: string): Option<seq<byte>>
    decreases |s|
  {
    if |s| == 0 then Some([])
    else if IsAsciiSpace(s[0]) then FromHex(s[1..])
    else if |s| < 2 then None
    else match (HexValue(s[0]), HexValue(s[1]))
      case (Some(hi), Some(lo)) =>
        (match FromHex(s[2..])
         case Some(rest) => Some([(16 * hi + lo) as byte] + rest)
         case None => None)
      case _ => None
  }

  lemma {:induction false} FromHexToHex(b: seq<byte>)
    ensures FromHex(ToHex(b)) == Some(b)
  {
    if |b| > 0 {
      var s := ToHex(b);
      HexValueOfHexDigit(b[0] / 16);
      HexValueOfHexDigit(b[0] % 16);
      assert s[2..] == ToHex(b[1..]);
      FromHexToHex(b[1..]);
      assert [b[0]] + b[1..] == b;
    }
  }

  lemma {:induction false} ToHexNoDollar(b: seq<byte>)
    ensures forall k :: 0 <= k < |ToHex(b)| ==> !IsDollar(ToHex(b)[k])
  {
    if |b| > 0 {
      ToHexNoDollar(b[1..]);
      var s := ToHex(b);
      assert s == [HexDigit(b[0] / 16), HexDigit(b[0] % 16)] + ToHex(b[1..]);
      forall k | 0 <= k < |s|
        ensures !IsDollar(s[k])
      {
        if k >= 2 {
          assert s[k] == ToHex(b[1..])[k - 2];
        }
      }
    }
  }

  // ---------------------------------------------------------------------------
  // Ordering

  /** Python's `a < b` on strings: lexicographic by code point. */
  predicate LexLess(a: string, b: string)
    decreases |a|
  {
    if |a| == 0 then |b| > 0
    else if |b| == 0 then false
    else if a[0] != b[0] then a[0] < b[0]
    else LexLess(a[1..], b[1..])
  }

  lemma {:induction false} LexLessIrreflexive(a: string)
    ensures !LexLess(a, a)
    decreases |a|
  {
    if |a| > 0 {
      LexLessIrreflexive(a[1..]);
    }
  }

  lemma {:induction false} LexLessTransitive(a: string, b: string, c: string)
    requires LexLess(a, b) && LexLess(b, c)
    ensures LexLess(a, c)
    decreases |a|
  {
    if |a| > 0 && a[0] == b[0] && b[0] == c[0] {
      LexLessTransitive(a[1..], b[1..], c[1..]);
    }
  }

  lemma {:induction false} LexLessTotal(a: string, b: string)
    ensures a == b || LexLess(a, b) || LexLess(b, a)
    decreases |a|
  {
    if |a| > 0 && |b| > 0 && a[0] == b[0] {
      LexLessTotal(a[1..], b[1..]);
      if a[1..] == b[1..] {
        assert a == [a[0]] + a[1..] && b == [b[0]] + b[1..];
      }
    }
  }

  lemma LexLessAsymmetric(a: string, b: string)
    requires LexLess(a, b)
    ensures !LexLess(b, a)
  {
    if LexLess(b, a) {
      LexLessTransitive(a, b, a);
      LexLessIrreflexive(a);
    }
  }
}
