/**
 * The Python `str`/`bytes` operations the proxy code relies on, stated over
 * sequences: substring search (`in`, `find`), `split`, `startswith`,
 * `endswith`, ASCII case mapping, `strip` and the `int()` conversion.
 */
module PyStr {
  import opened Base

  /** `p` occurs in `s` starting at index `i`. */
  predicate OccursAt<T(==)>(s: seq<T>, p: seq<T>, i: int)
  {
    0 <= i && i + |p| <= |s| && s[i..i + |p|] == p
  }

  /** Python `p in s`. */
  predicate Contains<T(==)>(s: seq<T>, p: seq<T>)
  {
    exists i :: 0 <= i <= |s| - |p| && OccursAt(s, p, i)
  }

  /** Python `s.startswith(p)`. */
  predicate StartsWith<T(==)>(s: seq<T>, p: seq<T>)
  {
    |p| <= |s| && s[..|p|] == p
  }

  /** Python `s.endswith(p)`; note that every sequence ends with `[]`. */
  predicate EndsWith<T(==)>(s: seq<T>, p: seq<T>)
  {
    |p| <= |s| && s[|s| - |p|..] == p
  }

  /** The first occurrence of `p` at or after `from`, as Python's `s.find(p, from)`. */
  function FindFrom<T(==)>(s: seq<T>, p: seq<T>, from: nat): (r: Option<nat>)
    ensures r.Some? ==> from <= r.value && OccursAt(s, p, r.value)
    ensures r.Some? ==> forall j :: from <= j < r.value ==> !OccursAt(s, p, j)
    ensures r.None? ==> forall j :: from <= j ==> !OccursAt(s, p, j)
    decreases |s| - from
  {
    if from + |p| > |s| then None
    else if s[from..from + |p|] == p then Some(from)
    else FindFrom(s, p, from + 1)
  }

  /** The first occurrence of `p` in `s` (`s.find(p)`, or `s.index(p)` when present). */
  function Find<T(==)>(s: seq<T>, p: seq<T>): (r: Option<nat>)
    ensures r.None? <==> !Contains(s, p)
    ensures r.Some? ==> OccursAt(s, p, r.value)
    ensures r.Some? ==> forall j :: 0 <= j < r.value ==> !OccursAt(s, p, j)
  {
    FindFrom(s, p, 0)
  }

  /** An occurrence inside a prefix is an occurrence in the whole sequence. */
  lemma OccursInPrefix<T>(s: seq<T>, n: nat, p: seq<T>, j: int)
    requires n <= |s| && OccursAt(s[..n], p, j)
    ensures OccursAt(s, p, j)
  {
    assert s[..n][j..j + |p|] == s[j..j + |p|];
  }

  /** An occurrence inside a suffix is an occurrence in the whole sequence, shifted. */
  lemma OccursInSuffix<T>(s: seq<T>, n: nat, p: seq<T>, j: int)
    requires n <= |s| && OccursAt(s[n..], p, j)
    ensures OccursAt(s, p, n + j)
  {
    assert s[n..][j..j + |p|] == s[n + j..n + j + |p|];
  }

  /** A prefix that ends before the first occurrence does not contain `p`. */
  lemma NoOccurrenceBefore<T>(s: seq<T>, p: seq<T>, i: nat)
    requires |p| > 0 && i <= |s|
    requires forall j :: 0 <= j < i ==> !OccursAt(s, p, j)
    ensures !Contains(s[..i], p)
  {
    if Contains(s[..i], p) {
      var j :| 0 <= j <= i - |p| && OccursAt(s[..i], p, j);
      OccursInPrefix(s, i, p, j);
    }
  }

  /**
   * Python `s.split(sep)` for a non-empty separator: the pieces between the
   * occurrences of `sep`, scanning left to right.
   */
  function Split<T(==)>(s: seq<T>, sep: seq<T>): (parts: seq<seq<T>>)
    requires |sep| > 0
    ensures |parts| >= 1
    ensures forall k :: 0 <= k < |parts| ==> !Contains(parts[k], sep)
    ensures Find(s, sep).Some? ==> parts[0] == s[..Find(s, sep).value]
    decreases |s|
  {
    match Find(s, sep)
    case None => [s]
    case Some(i) =>
      NoOccurrenceBefore(s, sep, i);
      var rest := s[i + |sep|..];
      [s[..i]] + Split(rest, sep)
  }

  /** Splitting at the first separator: the first piece, then the split of the rest. */
  lemma {:induction false} SplitAtFirst<T>(s: seq<T>, i: nat, sep: seq<T>)
    requires |sep| > 0 && Find(s, sep) == Some(i)
    ensures Split(s, sep) == [s[..i]] + Split(s[i + |sep|..], sep)
  {
    var parts := Split(s, sep);
    match Find(s, sep) {
      case Some(j) =>
        assert j == i;
        assert parts == [s[..j]] + Split(s[j + |sep|..], sep);
    }
  }

  /** Without `sep` the input is the only piece; with it there are at least two. */
  lemma SplitCount<T>(s: seq<T>, sep: seq<T>)
    requires |sep| > 0
    ensures !Contains(s, sep) ==> Split(s, sep) == [s]
    ensures Contains(s, sep) ==> |Split(s, sep)| >= 2
  {
    match Find(s, sep) {
      case None =>
      case Some(i) =>
        SplitAtFirst(s, i, sep);
    }
  }

  /** The last piece is a suffix of the input (Python's `s.split(sep)[-1]`). */
  lemma {:induction false} SplitLastIsSuffix<T>(s: seq<T>, sep: seq<T>)
    requires |sep| > 0
    ensures EndsWith(s, Split(s, sep)[|Split(s, sep)| - 1])
    decreases |s|
  {
    match Find(s, sep) {
      case None =>
        SplitCount(s, sep);
      case Some(i) =>
        var rest := s[i + |sep|..];
        var tail := Split(rest, sep);
        var last := tail[|tail| - 1];
        assert EndsWith(rest, last) by {
          SplitLastIsSuffix(rest, sep);
        }
        assert Split(s, sep)[|Split(s, sep)| - 1] == last by {
          SplitAtFirst(s, i, sep);
        }
        assert EndsWith(s, rest) by {
          assert s[|s| - |rest|..] == rest;
        }
        SuffixOfSuffix(s, rest, last);
    }
  }

  lemma SuffixOfSuffix<T>(s: seq<T>, t: seq<T>, u: seq<T>)
    requires EndsWith(s, t) && EndsWith(t, u)
    ensures EndsWith(s, u)
  {
    assert s[|s| - |u|..] == t[|t| - |u|..];
  }

  /** Python `sep.join(parts)`. */
  function Join<T>(parts: seq<seq<T>>, sep: seq<T>): seq<T>
  {
    if parts == [] then []
    else if |parts| == 1 then parts[0]
    else parts[0] + sep + Join(parts[1..], sep)
  }

  /** Joining a piece in front of a non-empty list of pieces. */
  lemma JoinCons<T>(p: seq<T>, tail: seq<seq<T>>, sep: seq<T>)
    requires |tail| >= 1
    ensures Join([p] + tail, sep) == p + sep + Join(tail, sep)
  {
    assert ([p] + tail)[1..] == tail;
  }

  /** A sequence is its prefix, the occurrence and its suffix. */
  lemma Recompose<T>(s: seq<T>, i: nat, sep: seq<T>)
    requires OccursAt(s, sep, i)
    ensures s == s[..i] + sep + s[i + |sep|..]
  {
  }

  /** Splitting loses nothing: joining the pieces back gives the input. */
  lemma {:induction false} JoinSplit<T>(s: seq<T>, sep: seq<T>)
    requires |sep| > 0
    ensures Join(Split(s, sep), sep) == s
    decreases |s|
  {
    match Find(s, sep)
    case None =>
      assert Split(s, sep) == [s];
    case Some(i) =>
      var rest := s[i + |sep|..];
      var tail := Split(rest, sep);
      SplitAtFirst(s, i, sep);
      JoinSplit(rest, sep);
      JoinCons(s[..i], tail, sep);
      Recompose(s, i, sep);
  }

  /** Python `s.split(sep, 1)[1]`: everything after the first occurrence. */
  function AfterFirst<T(==)>(s: seq<T>, sep: seq<T>): (r: seq<T>)
    requires Contains(s, sep)
    ensures EndsWith(s, r) && |r| + |sep| <= |s|
  {
    s[Find(s, sep).value + |sep|..]
  }

  /** The last piece of a split: Python `s.split(sep)[-1]`. */
  function LastPiece<T(==)>(s: seq<T>, sep: seq<T>): (r: seq<T>)
    requires |sep| > 0
    ensures !Contains(r, sep) && EndsWith(s, r)
    ensures !Contains(s, sep) ==> r == s
  {
    SplitCount(s, sep);
    SplitLastIsSuffix(s, sep);
    var parts := Split(s, sep);
    parts[|parts| - 1]
  }

  /** ASCII case mapping of one character. */
  function LowerChar(c: char): char
  {
    if 'A' <= c <= 'Z' then (c as int + 32) as char else c
  }

  function UpperChar(c: char): char
  {
    if 'a' <= c <= 'z' then (c as int - 32) as char else c
  }

  /** `s.lower()` restricted to ASCII letters. */
  function AsciiLower(s: string): (r: string)
    ensures |r| == |s|
  {
    seq(|s|, i requires 0 <= i < |s| => LowerChar(s[i]))
  }

  /** `s.upper()` restricted to ASCII letters. */
  function AsciiUpper(s: string): (r: string)
    ensures |r| == |s|
  {
    seq(|s|, i requires 0 <= i < |s| => UpperChar(s[i]))
  }

  /** Python's `str.isspace()` for one character (the full Unicode set Python uses). */
  predicate IsSpace(c: char)
  {
    || c == ' ' || '\t' <= c <= '\r' || '\U{1C}' <= c <= '\U{1F}'
    || c == '\U{85}' || c == '\U{A0}' || c == '\U{1680}'
    || '\U{2000}' <= c <= '\U{200A}' || c == '\U{2028}' || c == '\U{2029}'
    || c == '\U{202F}' || c == '\U{205F}' || c == '\U{3000}'
  }

  /** Python `s.lstrip()`. */
  function StripStart(s: string): (r: string)
    ensures EndsWith(s, r)
    ensures r == [] || !IsSpace(r[0])
  {
    if s != [] && IsSpace(s[0]) then
      var r := StripStart(s[1..]);
      SuffixOfSuffix(s, s[1..], r);
      r
    else s
  }

  /** What `lstrip()` removes is whitespace only. */
  lemma {:induction false} StripStartRemovesSpaces(s: string)
    ensures forall i :: 0 <= i < |s| - |StripStart(s)| ==> IsSpace(s[i])
    decreases |s|
  {
    if s != [] && IsSpace(s[0]) {
      StripStartRemovesSpaces(s[1..]);
      forall i | 1 <= i < |s| - |StripStart(s)| ensures IsSpace(s[i]) {
        assert s[i] == s[1..][i - 1];
      }
    }
  }

  /** Python `s.rstrip()`. */
  function StripEnd(s: string): (r: string)
    ensures StartsWith(s, r)
    ensures r == [] || !IsSpace(r[|r| - 1])
  {
    if s != [] && IsSpace(s[|s| - 1]) then
      var r := StripEnd(s[..|s| - 1]);
      assert s[..|r|] == s[..|s| - 1][..|r|];
      r
    else s
  }

  /** What `rstrip()` removes is whitespace only. */
  lemma {:induction false} StripEndRemovesSpaces(s: string)
    ensures forall i :: |StripEnd(s)| <= i < |s| ==> IsSpace(s[i])
    decreases |s|
  {
    if s != [] && IsSpace(s[|s| - 1]) {
      StripEndRemovesSpaces(s[..|s| - 1]);
      forall i | |StripEnd(s)| <= i < |s| - 1 ensures IsSpace(s[i]) {
        assert s[i] == s[..|s| - 1][i];
      }
    }
  }

  /** Python `s.strip()`. */
  function Strip(s: string): string
  {
    StripEnd(StripStart(s))
  }

  /** A string that neither starts nor ends with whitespace is its own strip. */
  lemma StripUnspaced(s: string)
    requires s == [] || (!IsSpace(s[0]) && !IsSpace(s[|s| - 1]))
    ensures Strip(s) == s
  {
  }

  /** `s.replace(a, b)` for single characters. */
  function ReplaceChar(s: string, a: char, b: char): (r: string)
    ensures |r| == |s|
    ensures forall i :: 0 <= i < |s| ==> r[i] == (if s[i] == a then b else s[i])
  {
    seq(|s|, i requires 0 <= i < |s| => if s[i] == a then b else s[i])
  }

  /** An ASCII digit. */
  predicate IsDigit(c: char)
  {
    '0' <= c <= '9'
  }

  /** The number of runs of ten decimal digits in Unicode 15.0. */
  const DecimalRuns := 68

  /**
   * The zero of the `k`-th run of ten decimal digits in Unicode 15.0 (the
   * characters with a decimal digit value, general category Nd), in code
   * point order; each run holds the digits 0 to 9 in order.
   */
  function RunZero(k: nat): (z: int)
    requires k < DecimalRuns
    ensures 0x30 <= z
  {
    match k
    case 0 => 0x30
    case 1 => 0x660
    case 2 => 0x6F0
    case 3 => 0x7C0
    case 4 => 0x966
    case 5 => 0x9E6
    case 6 => 0xA66
    case 7 => 0xAE6
    case 8 => 0xB66
    case 9 => 0xBE6
    case 10 => 0xC66
    case 11 => 0xCE6
    case 12 => 0xD66
    case 13 => 0xDE6
    case 14 => 0xE50
    case 15 => 0xED0
    case 16 => 0xF20
    case 17 => 0x1040
    case 18 => 0x1090
    case 19 => 0x17E0
    case 20 => 0x1810
    case 21 => 0x1946
    case 22 => 0x19D0
    case 23 => 0x1A80
    case 24 => 0x1A90
    case 25 => 0x1B50
    case 26 => 0x1BB0
    case 27 => 0x1C40
    case 28 => 0x1C50
    case 29 => 0xA620
    case 30 => 0xA8D0
    case 31 => 0xA900
    case 32 => 0xA9D0
    case 33 => 0xA9F0
    case 34 => 0xAA50
    case 35 => 0xABF0
    case 36 => 0xFF10
    case 37 => 0x104A0
    case 38 => 0x10D30
    case 39 => 0x11066
    case 40 => 0x110F0
    case 41 => 0x11136
    case 42 => 0x111D0
    case 43 => 0x112F0
    case 44 => 0x11450
    case 45 => 0x114D0
    case 46 => 0x11650
    case 47 => 0x116C0
    case 48 => 0x11730
    case 49 => 0x118E0
    case 50 => 0x11950
    case 51 => 0x11C50
    case 52 => 0x11D50
    case 53 => 0x11DA0
    case 54 => 0x11F50
    case 55 => 0x16A60
    case 56 => 0x16AC0
    case 57 => 0x16B50
    case 58 => 0x1D7CE
    case 59 => 0x1D7D8
    case 60 => 0x1D7E2
    case 61 => 0x1D7EC
    case 62 => 0x1D7F6
    case 63 => 0x1E140
    case 64 => 0x1E2F0
    case 65 => 0x1E4F0
    case 66 => 0x1E950
    case _ => 0x1FBF0
  }

  /** The zero of the run of decimal digits holding `c`, looking from the `k`-th run on. */
  function DecimalZeroFrom(c: char, k: nat): (z: Option<int>)
    ensures z.Some? ==> 0x30 <= z.value <= c as int < z.value + 10
    decreases DecimalRuns - k
  {
    if k >= DecimalRuns then None
    else if RunZero(k) <= c as int < RunZero(k) + 10 then Some(RunZero(k))
    else DecimalZeroFrom(c, k + 1)
  }

  /** A decimal digit of any script, as `int()` accepts it (`int('٣') == 3`). */
  predicate IsDecimal(c: char)
  {
    DecimalZeroFrom(c, 0).Some?
  }

  /** The value of a decimal digit: its distance from the zero of its run. */
  function DecimalValue(c: char): (v: nat)
    requires IsDecimal(c)
    ensures v < 10
  {
    c as int - DecimalZeroFrom(c, 0).value
  }

  /** ASCII digits are decimal digits with their usual values. */
  lemma AsciiDecimal(c: char)
    requires IsDigit(c)
    ensures IsDecimal(c) && DecimalValue(c) == c as int - '0' as int
  {
  }

  /**
   * The digit part of Python's `int()` literal grammar: decimal digits of
   * any script, with single underscores allowed only between two digits.
   */
  predicate IsDigitString(s: string)
  {
    && |s| > 0
    && IsDecimal(s[0])
    && forall i :: 0 <= i < |s| ==> DigitOrJoiner(s, i)
  }

  /** Position `i` holds a digit, or an underscore followed by a digit. */
  predicate DigitOrJoiner(s: string, i: nat)
    requires i < |s|
  {
    IsDecimal(s[i]) || (s[i] == '_' && i + 1 < |s| && IsDecimal(s[i + 1]))
  }

  /** The decimal value of a digit string, ignoring underscores. */
  function DigitsValue(s: string): nat
  {
    if s == [] then 0
    else if IsDecimal(s[|s| - 1]) then 10 * DigitsValue(s[..|s| - 1]) + DecimalValue(s[|s| - 1])
    else DigitsValue(s[..|s| - 1])
  }

  /**
   * The whitespace `int()` skips around a number. CPython first turns every
   * non-ASCII space into ' ' but copies ASCII text as it is, and then skips
   * only space, tab, LF, VT, FF and CR: the separators U+001C to U+001F,
   * which `isspace()` accepts, stay in the text and make `int()` fail.
   */
  predicate IsIntSpace(c: char)
  {
    IsSpace(c) && !('\U{1C}' <= c <= '\U{1F}')
  }

  /** The text `int()` reads: `s` without the whitespace it skips at either end. */
  function IntStrip(s: string): (r: string)
    ensures r == [] || (!IsIntSpace(r[0]) && !IsIntSpace(r[|r| - 1]))
    ensures forall c :: c in r ==> c in s
    ensures s != [] && !IsIntSpace(s[0]) ==> r != [] && r[0] == s[0]
    ensures s != [] && !IsIntSpace(s[|s| - 1]) ==> r != [] && r[|r| - 1] == s[|s| - 1]
    decreases |s|
  {
    if s != [] && IsIntSpace(s[0]) then
      assert forall c :: c in s[1..] ==> c in s;
      IntStrip(s[1..])
    else if s != [] && IsIntSpace(s[|s| - 1]) then
      assert forall c :: c in s[..|s| - 1] ==> c in s;
      IntStrip(s[..|s| - 1])
    else s
  }

  /** Python `int(s)`: surrounding whitespace, an optional sign, digits. */
  function ParseInt(s: string): Option<int>
  {
    var t := IntStrip(s);
    if |t| > 0 && (t[0] == '+' || t[0] == '-') then
      if IsDigitString(t[1..]) then
        var v: int := DigitsValue(t[1..]);
        Some(if t[0] == '-' then -v else v)
      else None
    else if IsDigitString(t) then Some(DigitsValue(t))
    else None
  }

  /** Python `str(n)` for a natural number: its shortest decimal spelling. */
  function NatToString(n: nat): (r: string)
    ensures |r| > 0
    ensures forall i :: 0 <= i < |r| ==> IsDigit(r[i])
  {
    if n < 10 then [('0' as int + n) as char]
    else NatToString(n / 10) + [('0' as int + n % 10) as char]
  }

  lemma {:induction false} DigitsValueOfNatToString(n: nat)
    ensures DigitsValue(NatToString(n)) == n
  {
    var r := NatToString(n);
    AsciiDecimal(r[|r| - 1]);
    if n >= 10 {
      DigitsValueOfNatToString(n / 10);
      assert r[..|r| - 1] == NatToString(n / 10);
    }
  }

  /** `int(str(n)) == n`: the parser reads back every decimal spelling. */
  lemma ParseIntNatToString(n: nat)
    ensures ParseInt(NatToString(n)) == Some(n)
  {
    var r := NatToString(n);
    DigitsValueOfNatToString(n);
    assert IsDigitString(r) by {
      forall i | 0 <= i < |r| ensures IsDecimal(r[i]) {
        AsciiDecimal(r[i]);
      }
    }
    ParseIntOfDigits(r);
  }

  /** An unsigned digit string with no surrounding whitespace reads as its value. */
  lemma ParseIntOfDigits(r: string)
    requires IntStrip(r) == r && IsDigitString(r) && r[0] != '+' && r[0] != '-'
    ensures ParseInt(r) == Some(DigitsValue(r))
  {
  }

  /** Digits of other scripts count: `int('٤٤٣')` (Arabic-Indic digits) is 443. */
  lemma ParseIntOtherScript()
    ensures ParseInt("\U{664}\U{664}\U{663}") == Some(443)
  {
    var r := "\U{664}\U{664}\U{663}";
    var four, three := '\U{664}', '\U{663}';
    assert DecimalZeroFrom(four, 0) == Some(0x660) && DecimalValue(four) == 4;
    assert DecimalZeroFrom(three, 0) == Some(0x660) && DecimalValue(three) == 3;
    assert DigitsValue(r) == 443 by {
      var r0, r1 := r[..1], r[..2];
      assert r0[..0] == [] && r1[..1] == r0 && r[..2] == r1;
      assert DigitsValue(r0) == 4;
      assert DigitsValue(r1) == 44;
    }
    assert IsDigitString(r) by {
      assert DigitOrJoiner(r, 0) && DigitOrJoiner(r, 1) && DigitOrJoiner(r, 2);
    }
    ParseIntOfDigits(r);
  }

  /** Text with no decimal digit of any script cannot be read as a number (e.g. `int('https')` raises). */
  lemma ParseIntNeedsDigit(s: string)
    requires forall i :: 0 <= i < |s| ==> !IsDecimal(s[i])
    ensures ParseInt(s) == None
  {
    var t := IntStrip(s);
    assert forall i :: 0 <= i < |t| ==> !IsDecimal(t[i]) by {
      forall i | 0 <= i < |t| ensures !IsDecimal(t[i]) {
        assert t[i] in s;
      }
    }
    assert !IsDigitString(t) by {
      if |t| > 0 {
        assert !IsDecimal(t[0]);
      }
    }
    assert |t| > 0 ==> !IsDigitString(t[1..]) by {
      if |t| > 1 {
        assert t[1..][0] == t[1];
      }
    }
    ParseIntRejects(s);
  }

  /**
   * An information separator (U+001C to U+001F) around a number makes
   * `int()` fail, although `isspace()` calls it whitespace:
   * `int('\x1c443')` raises where `'\x1c443'.strip()` is `'443'`.
   */
  lemma ParseIntSeparatorControl(c: char, s: string)
    requires '\U{1C}' <= c <= '\U{1F}'
    ensures ParseInt([c] + s) == None
    ensures ParseInt(s + [c]) == None
  {
    assert !IsDecimal(c);
    var t := IntStrip([c] + s);
    assert t[0] == c && c != '+' && c != '-';
    assert !IsDigitString(t);
    var u := IntStrip(s + [c]);
    assert u[|u| - 1] == c;
    assert !IsDigitString(u) by {
      assert !DigitOrJoiner(u, |u| - 1);
    }
    assert |u| > 1 ==> !IsDigitString(u[1..]) by {
      if |u| > 1 {
        assert u[1..][|u| - 2] == c;
        assert !DigitOrJoiner(u[1..], |u| - 2);
      }
    }
    ParseIntRejects(s + [c]);
  }

  /** `int()` fails when neither the stripped text nor what follows its first character is a digit string. */
  lemma ParseIntRejects(s: string)
    requires !IsDigitString(IntStrip(s)) && (|IntStrip(s)| > 0 ==> !IsDigitString(IntStrip(s)[1..]))
    ensures ParseInt(s) == None
  {
  }
}
