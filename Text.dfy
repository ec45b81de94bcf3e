/**
 * The string operations of JavaScript that the application relies on:
 * `toLowerCase` (for the alphabets `LowerChar` lists), `trim`, `includes`,
 * `toString` of an integer, `padStart`, `parseInt` (decimal and `0x`
 * hexadecimal), `split` and `join`, and `replace(/\n/g, '')`.
 */
module Text {
  import opened Wrappers
  import opened Seqs

  // ---------------------------------------------------------------------
  // Case and white space
  // ---------------------------------------------------------------------

  /**
   * The lower-case form of a character, for the capitals whose lower case is
   * one character at a fixed distance: Basic Latin, Latin-1, Greek, Cyrillic
   * and the full-width Latin letters an input method types. Every other
   * character is left as it is.
   */
  function LowerChar(c: char): char {
    if 'A' <= c <= 'Z' then (c as int + 0x20) as char
    else if ('\U{00C0}' <= c <= '\U{00D6}') || ('\U{00D8}' <= c <= '\U{00DE}') then (c as int + 0x20) as char
    else if ('\U{0391}' <= c <= '\U{03A1}') || ('\U{03A3}' <= c <= '\U{03AB}') then (c as int + 0x20) as char
    else if '\U{0400}' <= c <= '\U{040F}' then (c as int + 0x50) as char
    else if '\U{0410}' <= c <= '\U{042F}' then (c as int + 0x20) as char
    else if '\U{FF21}' <= c <= '\U{FF3A}' then (c as int + 0x20) as char
    else c
  }

  /** Full-width capital Z lowers to full-width small z. */
  lemma LowerFullWidth()
    ensures LowerChar('\U{FF3A}') == '\U{FF5A}'
    ensures ToLower("ポリゴン\U{FF3A}") == "ポリゴン\U{FF5A}"
  {
  }

  /** `s.toLowerCase()`, over the capitals `LowerChar` folds. */
  function ToLower(s: string): (r: string)
    ensures |r| == |s|
    ensures forall i :: 0 <= i < |s| ==> r[i] == LowerChar(s[i])
  {
    seq(|s|, i requires 0 <= i < |s| => LowerChar(s[i]))
  }

  /** Lower-casing twice is lower-casing once. */
  lemma ToLowerIdempotent(s: string)
    ensures ToLower(ToLower(s)) == ToLower(s)
  {
  }

  /** The characters `trim` removes: line terminators and Unicode space separators. */
  predicate IsWhitespace(c: char) {
    c == ' ' || c == '\t' || c == '\n' || c == '\r' || c == '\U{000B}' || c == '\U{000C}'
    || c == '\U{00A0}' || c == '\U{1680}' || ('\U{2000}' <= c <= '\U{200A}')
    || c == '\U{2028}' || c == '\U{2029}' || c == '\U{202F}' || c == '\U{205F}'
    || c == '\U{3000}' || c == '\U{FEFF}'
  }

  /** A lower-cased character is its own lower case. */
  lemma LowerCharIdempotent(c: char)
    ensures LowerChar(LowerChar(c)) == LowerChar(c)
  {
  }

  /** Lower-casing neither creates nor removes white space. */
  lemma LowerCharWhitespace(c: char)
    ensures IsWhitespace(LowerChar(c)) <==> IsWhitespace(c)
  {
  }

  /** The input without its leading white space. */
  function TrimStart(s: string): (r: string)
    ensures |r| <= |s| && r == s[|s| - |r|..]
    ensures r == [] || !IsWhitespace(r[0])
    ensures forall i :: 0 <= i < |s| - |r| ==> IsWhitespace(s[i])
    decreases |s|
  {
    if s != [] && IsWhitespace(s[0]) then TrimStart(s[1..]) else s
  }

  /** The input without its trailing white space. */
  function TrimEnd(s: string): (r: string)
    ensures |r| <= |s| && r == s[..|r|]
    ensures r == [] || !IsWhitespace(r[|r| - 1])
    ensures forall i :: |r| <= i < |s| ==> IsWhitespace(s[i])
    decreases |s|
  {
    if s != [] && IsWhitespace(s[|s| - 1]) then TrimEnd(s[..|s| - 1]) else s
  }

  /** `s.trim()`. */
  function Trim(s: string): string {
    TrimEnd(TrimStart(s))
  }

  /** A string is blank, `s.trim() === ''`, exactly when all of it is white space. */
  lemma BlankIffAllWhitespace(s: string)
    ensures Trim(s) == [] <==> forall i :: 0 <= i < |s| ==> IsWhitespace(s[i])
  {
    var t := TrimStart(s);
    assert t != [] ==> t[0] == s[|s| - |t|];
    assert Trim(s) == [] ==> t == [];
  }

  /** Lower-casing does not change whether a string is blank. */
  lemma ToLowerKeepsBlank(s: string)
    ensures Trim(ToLower(s)) == [] <==> Trim(s) == []
  {
    BlankIffAllWhitespace(s);
    BlankIffAllWhitespace(ToLower(s));
    forall i | 0 <= i < |s| ensures IsWhitespace(ToLower(s)[i]) <==> IsWhitespace(s[i]) {
      LowerCharWhitespace(s[i]);
    }
  }

  // ---------------------------------------------------------------------
  // Substrings
  // ---------------------------------------------------------------------

  /** `s.includes(q)`: `q` occurs somewhere in `s` (the empty string occurs everywhere). */
  predicate Contains(s: string, q: string)
    decreases |s|
  {
    q <= s || (s != [] && Contains(s[1..], q))
  }

  /** `q` occurs in `s` starting at position `i`. */
  predicate OccursAt(s: string, q: string, i: int) {
    0 <= i && i + |q| <= |s| && s[i..i + |q|] == q
  }

  /** `s.includes(q)` holds exactly when `q` occurs at some position of `s`. */
  lemma ContainsAt(s: string, q: string)
    ensures Contains(s, q) <==> exists i :: OccursAt(s, q, i)
  {
    if Contains(s, q) {
      var i := ContainsGivesOccurrence(s, q);
    }
    if i :| OccursAt(s, q, i) {
      OccurrenceGivesContains(s, q, i);
    }
  }

  /** Where `includes` finds `q`: a position at which it occurs. */
  lemma {:induction false} ContainsGivesOccurrence(s: string, q: string) returns (i: int)
    requires Contains(s, q)
    ensures OccursAt(s, q, i)
    decreases |s|
  {
    if q <= s {
      i := 0;
    } else {
      var j := ContainsGivesOccurrence(s[1..], q);
      assert s[j + 1..j + 1 + |q|] == s[1..][j..j + |q|];
      i := j + 1;
    }
  }

  /** An occurrence at any position is found by `includes`. */
  lemma {:induction false} OccurrenceGivesContains(s: string, q: string, i: int)
    requires OccursAt(s, q, i)
    ensures Contains(s, q)
    decreases i
  {
    if i != 0 {
      assert s[1..][i - 1..i - 1 + |q|] == s[i..i + |q|];
      OccurrenceGivesContains(s[1..], q, i - 1);
    }
  }

  /** Whatever a string contains, the string with anything put in front of it contains too. */
  lemma {:induction false} ContainsAfterPrefix(p: string, s: string, q: string)
    requires Contains(s, q)
    ensures Contains(p + s, q)
    decreases |p|
  {
    if p == [] {
      assert p + s == s;
    } else {
      ContainsAfterPrefix(p[1..], s, q);
      assert (p + s)[1..] == p[1..] + s;
    }
  }

  /** A string contains itself. */
  lemma ContainsSelf(s: string)
    ensures Contains(s, s)
  {
  }

  // ---------------------------------------------------------------------
  // Decimal numerals: toString, padStart, parseInt
  // ---------------------------------------------------------------------

  predicate IsDigit(c: char) {
    '0' <= c <= '9'
  }

  function DigitChar(d: nat): (c: char)
    requires d < 10
    ensures IsDigit(c)
  {
    ('0' as int + d) as char
  }

  function DigitValue(c: char): (d: nat)
    requires IsDigit(c)
    ensures d < 10
  {
    c as int - '0' as int
  }

  /** `n.toString()` for a non-negative integer: its decimal digits, no leading zeros. */
  function NatToString(n: nat): (r: string)
    ensures 1 <= |r|
    ensures forall i :: 0 <= i < |r| ==> IsDigit(r[i])
    ensures |r| > 1 ==> r[0] != '0'
    decreases n
  {
    if n < 10 then [DigitChar(n)] else NatToString(n / 10) + [DigitChar(n % 10)]
  }

  /** `n.toString()` for any integer. */
  function IntToString(n: int): (r: string)
    ensures 1 <= |r|
  {
    if n < 0 then "-" + NatToString(-n) else NatToString(n)
  }

  /** `c` repeated `n` times. */
  function Repeat(c: char, n: nat): (r: string)
    ensures |r| == n
    ensures forall i :: 0 <= i < n ==> r[i] == c
  {
    seq(n, _ => c)
  }

  /** `s.padStart(width, c)`: `c` put in front until the string is `width` long. */
  function PadStart(s: string, width: nat, c: char): (r: string)
    ensures |r| == if |s| < width then width else |s|
    ensures r == Repeat(c, |r| - |s|) + s
  {
    if |s| < width then Repeat(c, width - |s|) + s else s
  }

  /** A padded string still contains everything the unpadded one does. */
  lemma PadStartKeepsContains(s: string, width: nat, c: char, q: string)
    requires Contains(s, q)
    ensures Contains(PadStart(s, width, c), q)
  {
    if |s| < width {
      ContainsAfterPrefix(Repeat(c, width - |s|), s, q);
    }
  }

  /** The value of a string of decimal digits. */
  function DigitsValue(d: string): nat
    requires forall i :: 0 <= i < |d| ==> IsDigit(d[i])
    decreases |d|
  {
    if d == [] then 0 else DigitsValue(d[..|d| - 1]) * 10 + DigitValue(d[|d| - 1])
  }

  /** The longest prefix of `s` made of decimal digits. */
  function LeadingDigits(s: string): (r: string)
    ensures r <= s
    ensures forall i :: 0 <= i < |r| ==> IsDigit(r[i])
    ensures |r| < |s| ==> !IsDigit(s[|r|])
    decreases |s|
  {
    if s != [] && IsDigit(s[0]) then [s[0]] + LeadingDigits(s[1..]) else []
  }

  predicate IsHexDigit(c: char) {
    IsDigit(c) || 'a' <= c <= 'f' || 'A' <= c <= 'F'
  }

  function HexDigitValue(c: char): (d: nat)
    requires IsHexDigit(c)
    ensures d < 16
  {
    if IsDigit(c) then DigitValue(c)
    else if 'a' <= c <= 'f' then c as int - 'a' as int + 10
    else c as int - 'A' as int + 10
  }

  /** The value of a string of hexadecimal digits. */
  function HexValue(d: string): nat
    requires forall i :: 0 <= i < |d| ==> IsHexDigit(d[i])
    decreases |d|
  {
    if d == [] then 0 else HexValue(d[..|d| - 1]) * 16 + HexDigitValue(d[|d| - 1])
  }

  /** The longest prefix of `s` made of hexadecimal digits. */
  function LeadingHexDigits(s: string): (r: string)
    ensures r <= s
    ensures forall i :: 0 <= i < |r| ==> IsHexDigit(r[i])
    ensures |r| < |s| ==> !IsHexDigit(s[|r|])
    decreases |s|
  {
    if s != [] && IsHexDigit(s[0]) then [s[0]] + LeadingHexDigits(s[1..]) else []
  }

  /** Whether a numeral starts with the `0x` or `0X` prefix of base 16. */
  predicate HasHexPrefix(s: string) {
    |s| >= 2 && s[0] == '0' && (s[1] == 'x' || s[1] == 'X')
  }

  /**
   * `parseInt(s)` without a radix: leading white space and one sign are
   * skipped; after a `0x` or `0X` prefix the longest run of hexadecimal
   * digits is read, otherwise the longest run of decimal digits; `None`
   * stands for `NaN`, which is also the result when no digit follows.
   */
  function ParseInt(s: string): Option<int> {
    var t := TrimStart(s);
    var negative := t != [] && t[0] == '-';
    var body := if t != [] && (t[0] == '-' || t[0] == '+') then t[1..] else t;
    match ParseUnsigned(body)
    case None => None
    case Some(v) =>
      var n: int := v;
      Some(if negative then -n else n)
  }

  /** The numeral after the sign: hexadecimal after `0x` or `0X`, decimal otherwise. */
  function ParseUnsigned(body: string): Option<nat> {
    if HasHexPrefix(body) then
      var hex := LeadingHexDigits(body[2..]);
      if hex == [] then None else Some(HexValue(hex))
    else
      var digits := LeadingDigits(body);
      if digits == [] then None else Some(DigitsValue(digits))
  }

  /** After a `0x` prefix, a run of hexadecimal digits is read whole, in base 16. */
  lemma ParseIntOfHex(d: string)
    requires |d| >= 1 && forall i :: 0 <= i < |d| ==> IsHexDigit(d[i])
    ensures ParseInt("0x" + d) == Some(HexValue(d))
  {
    var s := "0x" + d;
    assert !IsWhitespace(s[0]);
    assert TrimStart(s) == s;
    assert HasHexPrefix(s) && s[2..] == d;
    LeadingHexDigitsOfHex(d);
  }

  /** A string made of hexadecimal digits only is its own longest hexadecimal prefix. */
  lemma {:induction false} LeadingHexDigitsOfHex(d: string)
    requires forall i :: 0 <= i < |d| ==> IsHexDigit(d[i])
    ensures LeadingHexDigits(d) == d
    decreases |d|
  {
    if d != [] {
      LeadingHexDigitsOfHex(d[1..]);
      assert d == [d[0]] + d[1..];
    }
  }

  /** After the base-16 prefix, `0x2` is two. */
  lemma ParseIntHexTwo()
    ensures ParseInt("0x2") == Some(2)
  {
    var s := "0x2";
    assert !IsWhitespace(s[0]);
    assert TrimStart(s) == s;
    assert HasHexPrefix(s);
    assert s[2..] == "2";
    assert LeadingHexDigits("2") == "2" by {
      assert LeadingHexDigits(""[..]) == [];
      assert "2"[1..] == [];
    }
    assert HexValue("2") == HexValue([]) * 16 + 2;
  }

  /** A bare `0x` prefix, with no hexadecimal digit after it, reads as `NaN`. */
  lemma ParseIntHexEmpty()
    ensures ParseInt("0x") == None
  {
    var s := "0x";
    assert !IsWhitespace(s[0]);
    assert TrimStart(s) == s;
    assert HasHexPrefix(s);
    assert s[2..] == [];
  }

  /** A string starting with a digit is not changed by `TrimStart` and has no sign. */
  lemma ParseIntOfDigits(d: string)
    requires |d| >= 1 && forall i :: 0 <= i < |d| ==> IsDigit(d[i])
    ensures ParseInt(d) == Some(DigitsValue(d))
  {
    assert IsDigit(d[0]);
    assert !IsWhitespace(d[0]);
    assert TrimStart(d) == d;
    ParseUnsignedOfDigits(d);
  }

  /** A digit string has no base-16 prefix and is read whole. */
  lemma ParseUnsignedOfDigits(d: string)
    requires |d| >= 1 && forall i :: 0 <= i < |d| ==> IsDigit(d[i])
    ensures ParseUnsigned(d) == Some(DigitsValue(d))
  {
    assert |d| >= 2 ==> IsDigit(d[1]);
    LeadingDigitsOfDigits(d);
  }

  /** A string made of digits only is its own longest digit prefix. */
  lemma {:induction false} LeadingDigitsOfDigits(d: string)
    requires forall i :: 0 <= i < |d| ==> IsDigit(d[i])
    ensures LeadingDigits(d) == d
    decreases |d|
  {
    if d != [] {
      LeadingDigitsOfDigits(d[1..]);
      assert d == [d[0]] + d[1..];
    }
  }

  /** Reading back the decimal digits of `n` gives `n`. */
  lemma {:induction false} DigitsValueOfNatToString(n: nat)
    ensures DigitsValue(NatToString(n)) == n
    decreases n
  {
    if n >= 10 {
      DigitsValueOfNatToString(n / 10);
      var d := NatToString(n);
      assert d[..|d| - 1] == NatToString(n / 10);
    }
  }

  /** A run of zeros is worth nothing. */
  lemma {:induction false} DigitsValueOfZeros(k: nat)
    ensures DigitsValue(Repeat('0', k)) == 0
    decreases k
  {
    if k > 0 {
      DigitsValueOfZeros(k - 1);
      assert Repeat('0', k)[..k - 1] == Repeat('0', k - 1);
    }
  }

  /** Leading zeros do not change the value of a digit string. */
  lemma {:induction false} DigitsValueLeadingZeros(k: nat, d: string)
    requires forall i :: 0 <= i < |d| ==> IsDigit(d[i])
    ensures forall i :: 0 <= i < |Repeat('0', k) + d| ==> IsDigit((Repeat('0', k) + d)[i])
    ensures DigitsValue(Repeat('0', k) + d) == DigitsValue(d)
    decreases |d|
  {
    var z := Repeat('0', k);
    if d == [] {
      assert z + d == z;
      DigitsValueOfZeros(k);
    } else {
      DigitsValueLeadingZeros(k, d[..|d| - 1]);
      assert (z + d)[..|z + d| - 1] == z + d[..|d| - 1];
    }
  }

  /** `parseInt(String(n))` is `n`: the decimal rendering reads back. */
  lemma ParseIntOfNatToString(n: nat)
    ensures ParseInt(NatToString(n)) == Some(n)
  {
    ParseIntOfDigits(NatToString(n));
    DigitsValueOfNatToString(n);
  }

  /** `parseInt(String(n).padStart(w, '0'))` is `n`: zero padding reads back too. */
  lemma ParseIntOfPadded(n: nat, width: nat)
    ensures ParseInt(PadStart(NatToString(n), width, '0')) == Some(n)
  {
    var s := NatToString(n);
    var p := PadStart(s, width, '0');
    DigitsValueLeadingZeros(|p| - |s|, s);
    ParseIntOfDigits(p);
    DigitsValueOfNatToString(n);
  }

  // ---------------------------------------------------------------------
  // split, join and newline removal
  // ---------------------------------------------------------------------

  /** `s.split(sep)` for a one-character separator: always at least one piece. */
  function Split(s: string, sep: char): (r: seq<string>)
    ensures |r| >= 1
    decreases |s|
  {
    if s == [] then [""]
    else
      var rest := Split(s[1..], sep);
      if s[0] == sep then [""] + rest else [[s[0]] + rest[0]] + rest[1..]
  }

  /** No piece of a split contains the separator. */
  lemma {:induction false} SplitPiecesLackSeparator(s: string, sep: char)
    ensures forall k :: 0 <= k < |Split(s, sep)| ==> sep !in Split(s, sep)[k]
    decreases |s|
  {
    if s != [] {
      SplitPiecesLackSeparator(s[1..], sep);
      var rest := Split(s[1..], sep);
      if s[0] != sep {
        assert sep !in [s[0]] + rest[0];
      }
    }
  }

  /** `parts.join(sep)`. */
  function Join(parts: seq<string>, sep: string): string
    decreases |parts|
  {
    if parts == [] then ""
    else if |parts| == 1 then parts[0]
    else parts[0] + sep + Join(parts[1..], sep)
  }

  /** A joined string begins with its first piece. */
  lemma JoinStartsWithFirst(parts: seq<string>, sep: string)
    requires parts != []
    ensures parts[0] <= Join(parts, sep)
  {
  }

  /** A character in neither the pieces nor the separator is not in the joined string. */
  lemma {:induction false} JoinAvoids(parts: seq<string>, sep: string, c: char)
    requires c !in sep
    requires forall k :: 0 <= k < |parts| ==> c !in parts[k]
    ensures c !in Join(parts, sep)
    decreases |parts|
  {
    if |parts| > 1 {
      JoinAvoids(parts[1..], sep, c);
    }
  }

  /** Joining the pieces of a split with the same separator gives the string back. */
  lemma {:induction false} JoinSplit(s: string, sep: char)
    ensures Join(Split(s, sep), [sep]) == s
    decreases |s|
  {
    if s != [] {
      JoinSplit(s[1..], sep);
      JoinSplitStep(s, sep);
    }
  }

  /** The inductive step of `JoinSplit`: one more character in front. */
  lemma JoinSplitStep(s: string, sep: char)
    requires s != [] && Join(Split(s[1..], sep), [sep]) == s[1..]
    ensures Join(Split(s, sep), [sep]) == s
  {
    SplitFirst(s, sep);
    assert s == [s[0]] + s[1..];
    if s[0] == sep {
      JoinCons("", Split(s[1..], sep), [sep]);
    } else {
      JoinSplitExtend(s[0], Split(s[1..], sep), [sep]);
    }
  }

  /** A character put in front of the first piece ends up in front of the joined string. */
  lemma JoinSplitExtend(c: char, rest: seq<string>, sep: string)
    requires rest != []
    ensures Join([[c] + rest[0]] + rest[1..], sep) == [c] + Join(rest, sep)
  {
    var x, t := rest[0], rest[1..];
    assert rest == [x] + t;
    JoinCons(x, t, sep);
    JoinCons([c] + x, t, sep);
    if t != [] {
      assert [c] + x + sep + Join(t, sep) == [c] + (x + sep + Join(t, sep));
    }
  }

  /** Joining a piece in front of others. */
  lemma JoinCons(x: string, t: seq<string>, sep: string)
    ensures Join([x] + t, sep) == if t == [] then x else x + sep + Join(t, sep)
  {
    assert ([x] + t)[1..] == t;
  }

  /** A string without the separator splits into itself alone. */
  lemma {:induction false} SplitWithoutSeparator(s: string, sep: char)
    requires sep !in s
    ensures Split(s, sep) == [s]
    decreases |s|
  {
    if s != [] {
      SplitWithoutSeparator(s[1..], sep);
      assert s == [s[0]] + s[1..];
    }
  }

  /** How `split` treats the first character of a non-empty string. */
  lemma SplitFirst(s: string, sep: char)
    requires s != []
    ensures Split(s, sep) ==
      if s[0] == sep then [""] + Split(s[1..], sep) else [[s[0]] + Split(s[1..], sep)[0]] + Split(s[1..], sep)[1..]
  {
  }

  /** Splitting around a separator splits each side. */
  lemma {:induction false} SplitAround(a: string, sep: char, b: string)
    ensures Split(a + [sep] + b, sep) == Split(a, sep) + Split(b, sep)
    decreases |a|
  {
    var s := a + [sep] + b;
    if a == [] {
      assert s == [sep] + b;
      SplitFirst(s, sep);
      assert s[1..] == b;
    } else {
      SplitAround(a[1..], sep, b);
      SplitAroundStep(a, sep, b);
    }
  }

  /** The inductive step of `SplitAround`: one more character in front. */
  lemma SplitAroundStep(a: string, sep: char, b: string)
    requires a != []
    requires Split(a[1..] + [sep] + b, sep) == Split(a[1..], sep) + Split(b, sep)
    ensures Split(a + [sep] + b, sep) == Split(a, sep) + Split(b, sep)
  {
    var s := a + [sep] + b;
    assert s[0] == a[0] && s[1..] == a[1..] + [sep] + b;
    SplitFirst(s, sep);
    SplitFirst(a, sep);
    ConsPieces(a[0], sep, Split(a[1..], sep), Split(b, sep));
  }

  /** Putting a character in front commutes with appending the pieces of the right side. */
  lemma ConsPieces(c: char, sep: char, left: seq<string>, right: seq<string>)
    requires |left| >= 1
    ensures (if c == sep then [""] + (left + right) else [[c] + (left + right)[0]] + (left + right)[1..])
      == (if c == sep then [""] + left else [[c] + left[0]] + left[1..]) + right
  {
    if c != sep {
      assert (left + right)[0] == left[0];
      assert (left + right)[1..] == left[1..] + right;
    }
  }

  /** `s.replace(/\n/g, '')`. */
  function StripNewlines(s: string): (r: string)
    ensures '\n' !in r
  {
    RemoveAll(s, '\n')
  }
}
